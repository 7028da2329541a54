/**
 What the deterministic seating suggestion is, as a function of who the guests are,
 which tables there are and which rules hold, with no reference to the order in which
 they are listed.
 */
module Seating {
  import opened Wrappers
  import opened Ordering

  /** An identifier; identifiers are compared by their text. */
  datatype Id = Id(text: string)

  datatype Guest = Guest(
    id: Id, householdId: Id, isChild: bool, isPlusOne: bool, accessibleRequired: bool)

  datatype Table = Table(id: Id, capacity: nat, locked: bool, accessibleSeats: Option<nat>)

  datatype Existing = Existing(guestId: Id, tableId: Id, locked: bool)

  datatype ConstraintKind =
    | KeepTogether | KeepApart | PreferTogether | PreferApart
    | MustBeAtTable | MustNotBeAtTable | AccessibleSeatRequired

  datatype Constraint = Constraint(
    kind: ConstraintKind,
    guestId: Option<Id>, householdId: Option<Id>, relatedGuestId: Option<Id>, tableId: Option<Id>,
    required: bool)

  datatype Rationale =
    | LockedAssignment | ExistingAssignment
    | PlusOneWithPrimary | HouseholdTogether | ChildWithHousehold | AccessibleCapacity

  /** What holds the members of a group together; rendered "locked:<id>" or "household:<id>". */
  datatype GroupKey = Locked(guestId: Id) | Household(householdId: Id)

  datatype Assignment = Assignment(
    guestId: Id, tableId: Id, groupKey: GroupKey, rationale: seq<Rationale>)

  /** Hard conflicts and warnings, rendered as a code followed by the subject's id. */
  datatype Issue =
    | Contradictory(constraintKey: string)
    | LockedAssignmentTableMissing(guestId: Id)
    | DuplicateAssignment(guestId: Id)
    | OverCapacity(tableId: Id)
    | MultipleRequiredTables(householdId: Id)
    | GroupUnassigned(householdId: Id)

  /** The guests and tables by id, and the rules: everything a household is placed by. */
  datatype Scene = Scene(guests: map<Id, Guest>, tables: map<Id, Table>, rules: set<Constraint>) {
    ghost predicate Valid() {
      && (forall g :: g in guests ==> guests[g].id == g)
      && (forall t :: t in tables ==> tables[t].id == t)
    }
  }

  /** Who sits where so far, how many seats each table has given away, and what went wrong. */
  datatype Plan = Plan(
    seats: map<Id, Assignment>, count: map<Id, nat>,
    hard: seq<Issue>, warnings: seq<Issue>)
  {
    function Occupied(t: Id): nat {
      if t in count then count[t] else 0
    }

    function TableOf(g: Id): Option<Id> {
      if g in seats then Some(seats[g].tableId) else None
    }

    /** Replaces the assignments and counts n more people at table t. */
    function Adding(seats': map<Id, Assignment>, t: Id, n: nat): Plan {
      this.(seats := seats', count := count[t := Occupied(t) + n])
    }

  }

  /** The guests whom the assignments put at table t. */
  ghost function SittingAt(seats: map<Id, Assignment>, t: Id): set<Id> {
    set g | g in seats && seats[g].tableId == t
  }

  /** JavaScript truthiness of a nullable id. */
  predicate Truthy(value: Option<Id>) {
    value.Some? && value.value.text != ""
  }

  // ---------------------------------------------------------------------------
  // Existing assignments

  function AcceptExisting(e: Existing): Assignment {
    Assignment(e.guestId, e.tableId, Locked(e.guestId),
               [if e.locked then LockedAssignment else ExistingAssignment])
  }

  predicate Acceptable(plan: Plan, tables: map<Id, Table>, e: Existing) {
    && e.tableId in tables
    && e.guestId !in plan.seats
    && plan.Occupied(e.tableId) + 1 <= tables[e.tableId].capacity
  }

  function SeatExisting(plan: Plan, tables: map<Id, Table>, e: Existing): Plan {
    if e.tableId !in tables then
      plan.(hard := plan.hard + [LockedAssignmentTableMissing(e.guestId)])
    else if e.guestId in plan.seats then
      plan.(hard := plan.hard + [DuplicateAssignment(e.guestId)])
    else if plan.Occupied(e.tableId) + 1 > tables[e.tableId].capacity then
      plan.(hard := plan.hard + [OverCapacity(e.tableId)])
    else
      plan.Adding(plan.seats[e.guestId := AcceptExisting(e)], e.tableId, 1)
  }

  function SeatAllExisting(plan: Plan, tables: map<Id, Table>, es: seq<Existing>): Plan {
    if es == [] then plan
    else SeatExisting(SeatAllExisting(plan, tables, es[..|es| - 1]), tables, es[|es| - 1])
  }

  // ---------------------------------------------------------------------------
  // Household groups

  /** The guests of one household that no existing assignment seats. */
  ghost function Members(guests: map<Id, Guest>, seated: set<Id>, household: Id): set<Id> {
    set g | g in guests && g !in seated && guests[g].householdId == household
  }

  ghost function Households(guests: map<Id, Guest>, seated: set<Id>): set<Id> {
    set g | g in guests && g !in seated :: guests[g].householdId
  }

  /** The constraint names the household or one of the guests. */
  ghost predicate Concerns(scene: Scene, members: set<Id>, c: Constraint)
    requires members <= scene.guests.Keys
  {
    exists g :: g in members &&
      (c.householdId == Some(scene.guests[g].householdId) || c.guestId == Some(g))
  }

  ghost function RequiredTables(scene: Scene, members: set<Id>): set<Id>
    requires members <= scene.guests.Keys
  {
    set c | c in scene.rules && c.required && c.kind.MustBeAtTable? && Truthy(c.tableId) &&
            Concerns(scene, members, c) :: c.tableId.value
  }

  ghost predicate Forbidden(scene: Scene, members: set<Id>, t: Id)
    requires members <= scene.guests.Keys
  {
    exists c :: c in scene.rules && c.required && c.kind.MustNotBeAtTable? &&
      c.tableId == Some(t) && Concerns(scene, members, c)
  }

  ghost function NeedAccess(scene: Scene, members: set<Id>): set<Id>
    requires members <= scene.guests.Keys
  {
    set g | g in members && scene.guests[g].accessibleRequired
  }

  function AccessibleSeats(t: Table): nat {
    if t.accessibleSeats.Some? then t.accessibleSeats.value else t.capacity
  }

  /** The table may take this group at all, however full it is. */
  ghost predicate Admissible(scene: Scene, members: set<Id>, t: Id)
    requires members <= scene.guests.Keys
  {
    && t in scene.tables
    && (scene.tables[t].locked ==> RequiredTables(scene, members) == {t})
    && (RequiredTables(scene, members) == {} || RequiredTables(scene, members) == {t})
    && !Forbidden(scene, members, t)
    && |NeedAccess(scene, members)| <= AccessibleSeats(scene.tables[t])
  }

  function Free(plan: Plan, tables: map<Id, Table>, t: Id): int
    requires t in tables
  {
    tables[t].capacity - plan.Occupied(t)
  }

  ghost predicate Fits(plan: Plan, scene: Scene, members: set<Id>, t: Id)
    requires members <= scene.guests.Keys
  {
    Admissible(scene, members, t) && |members| <= Free(plan, scene.tables, t)
  }

  /** Tightest fit: fewest seats left over, then the smaller id. */
  predicate Tighter(plan: Plan, tables: map<Id, Table>, a: Id, b: Id)
    requires a in tables && b in tables
  {
    Free(plan, tables, a) < Free(plan, tables, b) ||
    (Free(plan, tables, a) == Free(plan, tables, b) && Before(a.text, b.text))
  }

  ghost predicate TightestFit(plan: Plan, scene: Scene, members: set<Id>, t: Id)
    requires members <= scene.guests.Keys
  {
    && Fits(plan, scene, members, t)
    && (forall u :: Fits(plan, scene, members, u) && u != t ==> Tighter(plan, scene.tables, t, u))
  }

  function SeatReasons(g: Guest): seq<Rationale> {
    [if g.isPlusOne then PlusOneWithPrimary else HouseholdTogether] +
    (if g.isChild then [ChildWithHousehold] else []) +
    (if g.accessibleRequired then [AccessibleCapacity] else [])
  }

  function Seat(g: Guest, t: Id): Assignment {
    Assignment(g.id, t, Household(g.householdId), SeatReasons(g))
  }

  ghost function GroupSeats(guests: map<Id, Guest>, members: set<Id>, t: Id): map<Id, Assignment>
    requires members <= guests.Keys
  {
    map g | g in members :: Seat(guests[g], t)
  }

  ghost function SeatGroup(plan: Plan, scene: Scene, members: set<Id>, t: Id): Plan
    requires members <= scene.guests.Keys
  {
    plan.Adding(plan.seats + GroupSeats(scene.guests, members, t), t, |members|)
  }

  datatype Verdict = Conflicted | NoRoom | AtTable(tableId: Id)

  /** What the rules and the free seats decide for one household. */
  ghost function Judge(plan: Plan, scene: Scene, members: set<Id>): Verdict
    requires members <= scene.guests.Keys
  {
    if |RequiredTables(scene, members)| > 1 then Conflicted
    else if t :| TightestFit(plan, scene, members, t) then AtTable(t)
    else NoRoom
  }

  /** The outcome of trying one household: a conflict, a warning, or a table. */
  ghost function PlaceGroup(plan: Plan, scene: Scene, household: Id, members: set<Id>): Plan
    requires members <= scene.guests.Keys
  {
    match Judge(plan, scene, members)
    case Conflicted => plan.(hard := plan.hard + [MultipleRequiredTables(household)])
    case NoRoom => plan.(warnings := plan.warnings + [GroupUnassigned(household)])
    case AtTable(t) => SeatGroup(plan, scene, members, t)
  }

  /** Larger households are tried first; equal sizes in the order of their ids. */
  ghost predicate GoesFirst(guests: map<Id, Guest>, seated: set<Id>, a: Id, b: Id) {
    var m, n := |Members(guests, seated, a)|, |Members(guests, seated, b)|;
    n < m || (m == n && Before(a.text, b.text))
  }

  ghost predicate IsNext(guests: map<Id, Guest>, seated: set<Id>, pending: set<Id>, household: Id) {
    household in pending &&
    forall other :: other in pending && other != household ==> GoesFirst(guests, seated, household, other)
  }

  ghost function PlaceAll(plan: Plan, scene: Scene, seated: set<Id>, pending: set<Id>): Plan
    decreases pending
  {
    if household :| IsNext(scene.guests, seated, pending, household) then
      PlaceAll(PlaceGroup(plan, scene, household, Members(scene.guests, seated, household)),
               scene, seated, pending - {household})
    else plan
  }

  /** The whole allocation, starting from the contradictions found among the rules. */
  function Start(hard: seq<Issue>): Plan {
    Plan(map[], map[], hard, [])
  }

  ghost function Allocate(scene: Scene, existing: seq<Existing>, hard: seq<Issue>): Plan {
    var plan := SeatAllExisting(Start(hard), scene.tables, existing);
    PlaceAll(plan, scene, plan.seats.Keys, Households(scene.guests, plan.seats.Keys))
  }
}

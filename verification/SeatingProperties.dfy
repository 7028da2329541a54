/** What every seating allocation guarantees. */
module SeatingProperties {
  import opened Wrappers
  import opened Ordering
  import opened Seating

  // ---------------------------------------------------------------------------
  // Occupancy is the number of people at the table, and capacity is never exceeded

  ghost predicate Consistent(plan: Plan, tables: map<Id, Table>) {
    Counted(plan.seats, plan.count) && WithinCapacity(plan, tables) && Located(plan.seats, tables)
  }

  ghost predicate WithinCapacity(plan: Plan, tables: map<Id, Table>) {
    forall t :: t in tables ==> plan.Occupied(t) <= tables[t].capacity
  }

  ghost predicate Located(seats: map<Id, Assignment>, tables: map<Id, Table>) {
    forall g :: g in seats ==> seats[g].guestId == g && seats[g].tableId in tables
  }

  ghost predicate Counted(seats: map<Id, Assignment>, count: map<Id, nat>) {
    forall t {:trigger SittingAt(seats, t)} :: |SittingAt(seats, t)| == if t in count then count[t] else 0
  }

  lemma SittingWithNewcomers(seats: map<Id, Assignment>, newcomers: map<Id, Assignment>, t: Id, u: Id)
    requires newcomers.Keys !! seats.Keys
    requires forall g :: g in newcomers ==> newcomers[g].tableId == t
    ensures SittingAt(seats + newcomers, u) ==
            SittingAt(seats, u) + (if u == t then newcomers.Keys else {})
  {
  }

  /** Seating newcomers at t adds exactly them to t and nobody elsewhere. */
  lemma AddingCounted(plan: Plan, newcomers: map<Id, Assignment>, t: Id)
    requires Counted(plan.seats, plan.count)
    requires newcomers.Keys !! plan.seats.Keys
    requires forall g :: g in newcomers ==> newcomers[g].tableId == t
    ensures var next := plan.Adding(plan.seats + newcomers, t, |newcomers.Keys|); Counted(next.seats, next.count)
  {
    var next := plan.Adding(plan.seats + newcomers, t, |newcomers.Keys|);
    forall u ensures |SittingAt(next.seats, u)| == next.Occupied(u) {
      SittingWithNewcomers(plan.seats, newcomers, t, u);
      assert SittingAt(plan.seats, u) !! newcomers.Keys;
    }
  }

  lemma AddingConsistent(plan: Plan, tables: map<Id, Table>, newcomers: map<Id, Assignment>, t: Id)
    requires Consistent(plan, tables)
    requires newcomers.Keys !! plan.seats.Keys
    requires forall g :: g in newcomers ==> newcomers[g].tableId == t && newcomers[g].guestId == g
    requires t in tables && |newcomers.Keys| <= Free(plan, tables, t)
    ensures Consistent(plan.Adding(plan.seats + newcomers, t, |newcomers.Keys|), tables)
  {
    AddingCounted(plan, newcomers, t);
  }

  lemma ExistingConsistent(plan: Plan, tables: map<Id, Table>, e: Existing)
    requires Consistent(plan, tables)
    ensures Consistent(SeatExisting(plan, tables, e), tables)
  {
    if Acceptable(plan, tables, e) {
      var newcomer := map[e.guestId := AcceptExisting(e)];
      assert newcomer.Keys == {e.guestId};
      assert plan.seats[e.guestId := AcceptExisting(e)] == plan.seats + newcomer;
      AddingConsistent(plan, tables, newcomer, e.tableId);
    }
  }

  lemma {:induction false} AllExistingConsistent(plan: Plan, tables: map<Id, Table>, es: seq<Existing>)
    requires Consistent(plan, tables)
    ensures Consistent(SeatAllExisting(plan, tables, es), tables)
  {
    if es != [] {
      AllExistingConsistent(plan, tables, es[..|es| - 1]);
      ExistingConsistent(SeatAllExisting(plan, tables, es[..|es| - 1]), tables, es[|es| - 1]);
    }
  }

  lemma GroupConsistent(plan: Plan, scene: Scene, members: set<Id>, t: Id)
    requires scene.Valid() && Consistent(plan, scene.tables)
    requires members <= scene.guests.Keys && members !! plan.seats.Keys
    requires t in scene.tables && |members| <= Free(plan, scene.tables, t)
    ensures Consistent(SeatGroup(plan, scene, members, t), scene.tables)
  {
    var newcomers := GroupSeats(scene.guests, members, t);
    assert newcomers.Keys == members;
    AddingConsistent(plan, scene.tables, newcomers, t);
  }

  // ---------------------------------------------------------------------------
  // The choices always exist and are unique

  lemma TightestFitExists(plan: Plan, scene: Scene, members: set<Id>)
    requires members <= scene.guests.Keys
    requires exists t :: Fits(plan, scene, members, t)
    ensures exists t :: TightestFit(plan, scene, members, t)
  {
    BeforeIsTotal();
    var fitting := set t | t in scene.tables && Fits(plan, scene, members, t);
    var some :| Fits(plan, scene, members, some);
    assert some in fitting;
    var less := (a: Id, b: Id) => a in scene.tables && b in scene.tables && Tighter(plan, scene.tables, a, b);
    var best := MinimumExists(fitting, less);
    forall u | Fits(plan, scene, members, u) && u != best ensures Tighter(plan, scene.tables, best, u) {
      assert u in fitting && less(best, u);
    }
    assert TightestFit(plan, scene, members, best);
  }

  lemma TightestFitUnique(plan: Plan, scene: Scene, members: set<Id>, t: Id, u: Id)
    requires members <= scene.guests.Keys
    requires TightestFit(plan, scene, members, t) && TightestFit(plan, scene, members, u)
    ensures t == u
  {
    BeforeIsTotal();
  }

  /** The group goes to its tightest fit, whichever way that was found. */
  lemma JudgedAtTightestFit(plan: Plan, scene: Scene, members: set<Id>, t: Id)
    requires members <= scene.guests.Keys
    requires |RequiredTables(scene, members)| <= 1 && TightestFit(plan, scene, members, t)
    ensures Judge(plan, scene, members) == AtTable(t)
  {
    forall u | TightestFit(plan, scene, members, u) ensures u == t {
      TightestFitUnique(plan, scene, members, t, u);
    }
  }

  lemma NextExists(guests: map<Id, Guest>, seated: set<Id>, pending: set<Id>)
    requires pending != {}
    ensures exists household :: IsNext(guests, seated, pending, household)
  {
    BeforeIsTotal();
    var less := (a: Id, b: Id) => GoesFirst(guests, seated, a, b);
    var first := MinimumExists(pending, less);
    assert IsNext(guests, seated, pending, first);
  }

  lemma NextUnique(guests: map<Id, Guest>, seated: set<Id>, pending: set<Id>, a: Id, b: Id)
    requires IsNext(guests, seated, pending, a) && IsNext(guests, seated, pending, b)
    ensures a == b
  {
    BeforeIsTotal();
    assert a != b ==> GoesFirst(guests, seated, a, b) && GoesFirst(guests, seated, b, a);
  }

  // ---------------------------------------------------------------------------
  // What becomes of one household

  /** The whole household sits at t. */
  ghost predicate SitTogether(plan: Plan, scene: Scene, members: set<Id>, t: Id)
    requires members <= scene.guests.Keys
  {
    forall g :: g in members ==> g in plan.seats && plan.seats[g] == Seat(scene.guests[g], t)
  }

  /** Nobody of the household is seated, because its rules name several tables. */
  ghost predicate LeftForConflict(plan: Plan, scene: Scene, household: Id, members: set<Id>)
    requires members <= scene.guests.Keys
  {
    && members !! plan.seats.Keys
    && |RequiredTables(scene, members)| > 1
    && MultipleRequiredTables(household) in plan.hard
  }

  /** Nobody of the household is seated, and no table its rules admit has room for it. */
  ghost predicate LeftForRoom(plan: Plan, scene: Scene, household: Id, members: set<Id>)
    requires members <= scene.guests.Keys
  {
    && members !! plan.seats.Keys
    && |RequiredTables(scene, members)| <= 1
    && GroupUnassigned(household) in plan.warnings
    && forall t :: Admissible(scene, members, t) ==> Free(plan, scene.tables, t) < |members|
  }

  ghost predicate Settled(plan: Plan, scene: Scene, household: Id, members: set<Id>)
    requires members <= scene.guests.Keys
  {
    || (exists t :: Admissible(scene, members, t) && SitTogether(plan, scene, members, t))
    || LeftForConflict(plan, scene, household, members)
    || LeftForRoom(plan, scene, household, members)
  }

  /** b extends a: seats already given stay as they were, and tables only fill up. */
  ghost predicate Extends(a: Plan, b: Plan) {
    && (forall g :: g in a.seats ==> g in b.seats && b.seats[g] == a.seats[g])
    && (forall t :: a.Occupied(t) <= b.Occupied(t))
    && a.hard <= b.hard && a.warnings <= b.warnings
  }

  lemma AddingExtends(plan: Plan, newcomers: map<Id, Assignment>, t: Id)
    requires newcomers.Keys !! plan.seats.Keys
    ensures Extends(plan, plan.Adding(plan.seats + newcomers, t, |newcomers.Keys|))
  {
  }

  lemma SeatGroupSeats(plan: Plan, scene: Scene, members: set<Id>, t: Id)
    requires members <= scene.guests.Keys && members !! plan.seats.Keys
    ensures var next := SeatGroup(plan, scene, members, t);
      && SitTogether(next, scene, members, t) && Extends(plan, next)
      && next.seats.Keys == plan.seats.Keys + members
  {
    var newcomers := GroupSeats(scene.guests, members, t);
    assert newcomers.Keys == members;
    AddingExtends(plan, newcomers, t);
  }

  lemma NoFitNoRoom(plan: Plan, scene: Scene, members: set<Id>)
    requires members <= scene.guests.Keys
    requires !exists t :: TightestFit(plan, scene, members, t)
    ensures forall t :: Admissible(scene, members, t) ==> Free(plan, scene.tables, t) < |members|
  {
    forall t | Admissible(scene, members, t) ensures Free(plan, scene.tables, t) < |members| {
      if Fits(plan, scene, members, t) {
        TightestFitExists(plan, scene, members);
      }
    }
  }

  /** The invariant of one placement: from plan to next, only this household was touched. */
  ghost predicate Placement(plan: Plan, next: Plan, scene: Scene, household: Id, members: set<Id>)
    requires members <= scene.guests.Keys
  {
    && Consistent(next, scene.tables) && Extends(plan, next)
    && next.seats.Keys <= plan.seats.Keys + members
    && Settled(next, scene, household, members)
  }

  lemma PlacementAtTable(plan: Plan, scene: Scene, household: Id, members: set<Id>, t: Id)
    requires scene.Valid() && Consistent(plan, scene.tables)
    requires members <= scene.guests.Keys && members !! plan.seats.Keys
    requires Fits(plan, scene, members, t)
    ensures Placement(plan, SeatGroup(plan, scene, members, t), scene, household, members)
  {
    GroupConsistent(plan, scene, members, t);
    SeatGroupSeats(plan, scene, members, t);
  }

  lemma PlacementInConflict(plan: Plan, scene: Scene, household: Id, members: set<Id>)
    requires Consistent(plan, scene.tables)
    requires members <= scene.guests.Keys && members !! plan.seats.Keys
    requires |RequiredTables(scene, members)| > 1
    ensures Placement(plan, plan.(hard := plan.hard + [MultipleRequiredTables(household)]),
                      scene, household, members)
  {
    var hard := plan.hard + [MultipleRequiredTables(household)];
    assert hard[|plan.hard|] == MultipleRequiredTables(household);
    assert LeftForConflict(plan.(hard := hard), scene, household, members);
  }

  lemma PlacementWithoutRoom(plan: Plan, scene: Scene, household: Id, members: set<Id>)
    requires Consistent(plan, scene.tables)
    requires members <= scene.guests.Keys && members !! plan.seats.Keys
    requires |RequiredTables(scene, members)| <= 1
    requires forall t :: Admissible(scene, members, t) ==> Free(plan, scene.tables, t) < |members|
    ensures Placement(plan, plan.(warnings := plan.warnings + [GroupUnassigned(household)]),
                      scene, household, members)
  {
    var warnings := plan.warnings + [GroupUnassigned(household)];
    assert warnings[|plan.warnings|] == GroupUnassigned(household);
    assert LeftForRoom(plan.(warnings := warnings), scene, household, members);
  }

  lemma PlaceGroupSettles(plan: Plan, scene: Scene, household: Id, members: set<Id>)
    requires scene.Valid() && Consistent(plan, scene.tables)
    requires members <= scene.guests.Keys && members !! plan.seats.Keys
    ensures Placement(plan, PlaceGroup(plan, scene, household, members), scene, household, members)
  {
    match Judge(plan, scene, members)
    case Conflicted =>
      PlacementInConflict(plan, scene, household, members);
    case AtTable(t) =>
      PlacementAtTable(plan, scene, household, members, t);
    case NoRoom =>
      NoFitNoRoom(plan, scene, members);
      PlacementWithoutRoom(plan, scene, household, members);
  }

  /** Once settled, a household stays as it is while nobody of it is touched. */
  lemma SettledStays(a: Plan, b: Plan, scene: Scene, household: Id, members: set<Id>)
    requires members <= scene.guests.Keys
    requires Settled(a, scene, household, members) && Extends(a, b)
    requires members !! b.seats.Keys - a.seats.Keys
    ensures Settled(b, scene, household, members)
  {
    if t :| Admissible(scene, members, t) && SitTogether(a, scene, members, t) {
      assert SitTogether(b, scene, members, t);
    } else {
      var conflict, room := MultipleRequiredTables(household), GroupUnassigned(household);
      assert conflict in a.hard ==> conflict in b.hard;
      assert room in a.warnings ==> room in b.warnings;
    }
  }

  ghost function MembersOf(scene: Scene, seated: set<Id>, households: set<Id>): set<Id> {
    set g | g in scene.guests && g !in seated && scene.guests[g].householdId in households
  }

  /** Trying the households one after another settles every one of them for good. */
  lemma {:induction false} PlaceAllSettles(plan: Plan, scene: Scene, seated: set<Id>, pending: set<Id>)
    requires scene.Valid() && Consistent(plan, scene.tables)
    requires MembersOf(scene, seated, pending) !! plan.seats.Keys
    ensures var final := PlaceAll(plan, scene, seated, pending);
      && Consistent(final, scene.tables) && Extends(plan, final)
      && final.seats.Keys <= plan.seats.Keys + MembersOf(scene, seated, pending)
      && forall household :: household in pending ==> Settled(final, scene, household, Members(scene.guests, seated, household))
    decreases pending
  {
    if pending != {} {
      NextExists(scene.guests, seated, pending);
      var first :| IsNext(scene.guests, seated, pending, first) &&
        PlaceAll(plan, scene, seated, pending) ==
        PlaceAll(PlaceGroup(plan, scene, first, Members(scene.guests, seated, first)), scene, seated, pending - {first});
      var members := Members(scene.guests, seated, first);
      var next := PlaceGroup(plan, scene, first, members);
      assert members <= MembersOf(scene, seated, pending);
      PlaceGroupSettles(plan, scene, first, members);
      PlaceAllSettles(next, scene, seated, pending - {first});
      SettledStays(next, PlaceAll(next, scene, seated, pending - {first}), scene, first, members);
    }
  }

  // ---------------------------------------------------------------------------
  // Existing assignments are honoured in their order

  /** The plan after the first i existing assignments. */
  function AfterExisting(tables: map<Id, Table>, hard: seq<Issue>, es: seq<Existing>, i: nat): Plan
    requires i <= |es|
  {
    SeatAllExisting(Start(hard), tables, es[..i])
  }

  /** When its turn comes, assignment i names a known table with a seat left. */
  ghost predicate HasSeat(tables: map<Id, Table>, hard: seq<Issue>, es: seq<Existing>, i: nat)
    requires i < |es|
  {
    es[i].tableId in tables &&
    AfterExisting(tables, hard, es, i).Occupied(es[i].tableId) < tables[es[i].tableId].capacity
  }

  /** Assignment i is the first one of its guest that can be honoured. */
  ghost predicate FirstValid(tables: map<Id, Table>, hard: seq<Issue>, es: seq<Existing>, i: nat)
    requires i < |es|
  {
    HasSeat(tables, hard, es, i) &&
    forall j :: 0 <= j < i && es[j].guestId == es[i].guestId ==> !HasSeat(tables, hard, es, j)
  }

  lemma OneMoreExisting(tables: map<Id, Table>, hard: seq<Issue>, es: seq<Existing>, i: nat)
    requires i < |es|
    ensures AfterExisting(tables, hard, es, i + 1) ==
            SeatExisting(AfterExisting(tables, hard, es, i), tables, es[i])
  {
    assert es[..i + 1][..i] == es[..i];
  }

  lemma {:induction false} ExistingNotSeatedBefore(
      tables: map<Id, Table>, hard: seq<Issue>, es: seq<Existing>, g: Id, i: nat)
    requires i <= |es|
    requires forall j :: 0 <= j < i && es[j].guestId == g ==> !HasSeat(tables, hard, es, j)
    ensures g !in AfterExisting(tables, hard, es, i).seats
  {
    if i > 0 {
      ExistingNotSeatedBefore(tables, hard, es, g, i - 1);
      OneMoreExisting(tables, hard, es, i - 1);
    }
  }

  lemma {:induction false} SeatedExistingStays(
      tables: map<Id, Table>, hard: seq<Issue>, es: seq<Existing>, g: Id, i: nat, n: nat)
    requires i <= n <= |es| && g in AfterExisting(tables, hard, es, i).seats
    ensures var a, b := AfterExisting(tables, hard, es, i), AfterExisting(tables, hard, es, n);
      g in b.seats && b.seats[g] == a.seats[g]
    decreases n - i
  {
    if i < n {
      OneMoreExisting(tables, hard, es, i);
      SeatedExistingStays(tables, hard, es, g, i + 1, n);
    }
  }

  /** The first valid existing assignment of a guest decides the guest's seat. */
  lemma FirstValidDecides(tables: map<Id, Table>, hard: seq<Issue>, es: seq<Existing>, i: nat)
    requires i < |es| && FirstValid(tables, hard, es, i)
    ensures var plan := SeatAllExisting(Start(hard), tables, es);
      es[i].guestId in plan.seats && plan.seats[es[i].guestId] == AcceptExisting(es[i])
  {
    ExistingNotSeatedBefore(tables, hard, es, es[i].guestId, i);
    OneMoreExisting(tables, hard, es, i);
    SeatedExistingStays(tables, hard, es, es[i].guestId, i + 1, |es|);
    assert es[..|es|] == es;
  }

  /** A guest seated before the households are tried has a first valid existing assignment. */
  lemma {:induction false} SeatedByFirstValid(
      tables: map<Id, Table>, hard: seq<Issue>, es: seq<Existing>, g: Id, n: nat)
    requires n <= |es| && g in AfterExisting(tables, hard, es, n).seats
    ensures exists i :: 0 <= i < n && es[i].guestId == g && FirstValid(tables, hard, es, i)
  {
    if n > 0 {
      if j :| 0 <= j < n - 1 && es[j].guestId == g && HasSeat(tables, hard, es, j) {
        FirstOf(tables, hard, es, g, j);
      } else {
        ExistingNotSeatedBefore(tables, hard, es, g, n - 1);
        OneMoreExisting(tables, hard, es, n - 1);
        assert FirstValid(tables, hard, es, n - 1);
      }
    }
  }

  lemma {:induction false} FirstOf(
      tables: map<Id, Table>, hard: seq<Issue>, es: seq<Existing>, g: Id, j: nat)
    requires j < |es| && es[j].guestId == g && HasSeat(tables, hard, es, j)
    ensures exists i :: 0 <= i <= j && es[i].guestId == g && FirstValid(tables, hard, es, i)
  {
    if k :| 0 <= k < j && es[k].guestId == g && HasSeat(tables, hard, es, k) {
      FirstOf(tables, hard, es, g, k);
    } else {
      assert FirstValid(tables, hard, es, j);
    }
  }

  // ---------------------------------------------------------------------------
  // The allocation as a whole

  /** The guests seated before any household is tried. */
  function Seated(scene: Scene, es: seq<Existing>, hard: seq<Issue>): set<Id> {
    SeatAllExisting(Start(hard), scene.tables, es).seats.Keys
  }

  lemma AllocateSettles(scene: Scene, es: seq<Existing>, hard: seq<Issue>)
    requires scene.Valid()
    ensures var before, final := SeatAllExisting(Start(hard), scene.tables, es), Allocate(scene, es, hard);
      && Consistent(final, scene.tables) && Extends(before, final)
      && final.seats.Keys <= before.seats.Keys + scene.guests.Keys
      && forall h :: h in Households(scene.guests, Seated(scene, es, hard)) ==>
           Settled(final, scene, h, Members(scene.guests, Seated(scene, es, hard), h))
  {
    var start := Start(hard);
    forall t ensures SittingAt(start.seats, t) == {} {}
    AllExistingConsistent(start, scene.tables, es);
    var before := SeatAllExisting(start, scene.tables, es);
    PlaceAllSettles(before, scene, before.seats.Keys, Households(scene.guests, before.seats.Keys));
  }

  /** No table is ever over capacity, and its counter is the number of people it seats. */
  lemma CapacityRespected(scene: Scene, es: seq<Existing>, hard: seq<Issue>, t: Id)
    requires scene.Valid() && t in scene.tables
    ensures var final := Allocate(scene, es, hard);
      |SittingAt(final.seats, t)| == final.Occupied(t) <= scene.tables[t].capacity
  {
    AllocateSettles(scene, es, hard);
  }

  /** An existing assignment that was honoured survives the placement of every household. */
  lemma ExistingKept(scene: Scene, es: seq<Existing>, hard: seq<Issue>, i: nat)
    requires scene.Valid() && i < |es| && FirstValid(scene.tables, hard, es, i)
    ensures var final := Allocate(scene, es, hard);
      es[i].guestId in final.seats && final.seats[es[i].guestId] == AcceptExisting(es[i])
  {
    AllocateSettles(scene, es, hard);
    FirstValidDecides(scene.tables, hard, es, i);
  }

  /**
   The members of a household without an existing assignment share one table that their
   rules admit, or none of them has a seat; and they have none only if their rules name
   several tables or every admissible table is too full for them even at the end.
   */
  lemma HouseholdWhole(scene: Scene, es: seq<Existing>, hard: seq<Issue>, h: Id)
    requires scene.Valid() && h in Households(scene.guests, Seated(scene, es, hard))
    ensures var final := Allocate(scene, es, hard);
      var members := Members(scene.guests, Seated(scene, es, hard), h);
      || (exists t :: Admissible(scene, members, t) && SitTogether(final, scene, members, t))
      || LeftForConflict(final, scene, h, members)
      || LeftForRoom(final, scene, h, members)
  {
    AllocateSettles(scene, es, hard);
    assert Settled(Allocate(scene, es, hard), scene, h, Members(scene.guests, Seated(scene, es, hard), h));
  }
}

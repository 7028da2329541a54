/** The seating result in terms of tables, capacities and the people sitting at them. */
module SeatingOutcome {
  import opened Wrappers
  import opened Ordering
  import opened Seating
  import opened SeatingProperties

  // ---------------------------------------------------------------------------
  // What the rules allow a household

  /** The rule binds the household: it is required and names the household or one of its members. */
  ghost predicate Binds(c: Constraint, h: Id, members: set<Id>) {
    c.required && (c.householdId == Some(h) || exists g :: g in members && c.guestId == Some(g))
  }

  ghost predicate Demands(scene: Scene, h: Id, members: set<Id>, t: Id) {
    t.text != "" && exists c :: c in scene.rules && c.kind == MustBeAtTable && Binds(c, h, members) && c.tableId == Some(t)
  }

  ghost predicate Rejects(scene: Scene, h: Id, members: set<Id>, t: Id) {
    exists c :: c in scene.rules && c.kind == MustNotBeAtTable && Binds(c, h, members) && c.tableId == Some(t)
  }

  /** Every table demanded is this one, a locked one is demanded, none rejected, and accessible seats suffice for the group. */
  ghost predicate Allowed(scene: Scene, h: Id, members: set<Id>, t: Id)
    requires members <= scene.guests.Keys
  {
    && t in scene.tables
    && (forall u :: Demands(scene, h, members, u) ==> u == t)
    && (scene.tables[t].locked ==> Demands(scene, h, members, t))
    && !Rejects(scene, h, members, t)
    && (var needing := set g | g in members && scene.guests[g].accessibleRequired;
        |needing| <= match scene.tables[t].accessibleSeats case Some(n) => n case None => scene.tables[t].capacity)
  }

  /** The members are the unseated guests of one household. */
  ghost predicate OfHousehold(scene: Scene, h: Id, members: set<Id>) {
    members != {} && members <= scene.guests.Keys && forall g :: g in members ==> scene.guests[g].householdId == h
  }

  lemma ConcernsIsBinds(scene: Scene, h: Id, members: set<Id>, c: Constraint)
    requires OfHousehold(scene, h, members) && c.required
    ensures Concerns(scene, members, c) <==> Binds(c, h, members)
  {
    var some :| some in members;
    assert scene.guests[some].householdId == h;
  }

  lemma RequiredAreDemanded(scene: Scene, h: Id, members: set<Id>, t: Id)
    requires OfHousehold(scene, h, members)
    ensures t in RequiredTables(scene, members) <==> Demands(scene, h, members, t)
  {
    if t in RequiredTables(scene, members) {
      var c :| c in scene.rules && c.required && c.kind.MustBeAtTable? && Truthy(c.tableId) &&
        Concerns(scene, members, c) && c.tableId.value == t;
      ConcernsIsBinds(scene, h, members, c);
    }
    if Demands(scene, h, members, t) {
      var c :| c in scene.rules && c.kind == MustBeAtTable && Binds(c, h, members) && c.tableId == Some(t);
      ConcernsIsBinds(scene, h, members, c);
    }
  }

  lemma ForbiddenIsRejected(scene: Scene, h: Id, members: set<Id>, t: Id)
    requires OfHousehold(scene, h, members)
    ensures Forbidden(scene, members, t) <==> Rejects(scene, h, members, t)
  {
    forall c | c in scene.rules && c.required ensures Concerns(scene, members, c) <==> Binds(c, h, members) {
      ConcernsIsBinds(scene, h, members, c);
    }
  }

  lemma OneRequired(scene: Scene, h: Id, members: set<Id>, t: Id)
    requires OfHousehold(scene, h, members)
    ensures RequiredTables(scene, members) == {} || RequiredTables(scene, members) == {t} <==>
            forall u :: Demands(scene, h, members, u) ==> u == t
    ensures RequiredTables(scene, members) == {t} <==>
            Demands(scene, h, members, t) && forall u :: Demands(scene, h, members, u) ==> u == t
  {
    forall u ensures u in RequiredTables(scene, members) <==> Demands(scene, h, members, u) {
      RequiredAreDemanded(scene, h, members, u);
    }
  }

  /** The filters of the candidate tables let through exactly the allowed ones. */
  lemma AdmissibleIsAllowed(scene: Scene, h: Id, members: set<Id>, t: Id)
    requires OfHousehold(scene, h, members)
    ensures Admissible(scene, members, t) <==> Allowed(scene, h, members, t)
  {
    OneRequired(scene, h, members, t);
    ForbiddenIsRejected(scene, h, members, t);
    assert NeedAccess(scene, members) == set g | g in members && scene.guests[g].accessibleRequired;
  }

  ghost predicate DemandsSeveral(scene: Scene, h: Id, members: set<Id>) {
    exists t, u :: t != u && Demands(scene, h, members, t) && Demands(scene, h, members, u)
  }

  lemma SeveralRequired(scene: Scene, h: Id, members: set<Id>)
    requires OfHousehold(scene, h, members)
    ensures |RequiredTables(scene, members)| > 1 <==> DemandsSeveral(scene, h, members)
  {
    var required := RequiredTables(scene, members);
    forall u ensures u in required <==> Demands(scene, h, members, u) {
      RequiredAreDemanded(scene, h, members, u);
    }
    MoreThanOne(required);
  }

  lemma MoreThanOne(s: set<Id>)
    ensures |s| > 1 <==> exists t, u :: t != u && t in s && u in s
  {
    if |s| > 1 {
      var t :| t in s;
      assert |s - {t}| > 0;
      var u :| u in s - {t};
    }
    if t, u :| t != u && t in s && u in s {
      assert {t, u} <= s;
      assert |s| == |s - {t, u}| + |{t, u}|;
    }
  }

  // ---------------------------------------------------------------------------
  // The table a household gets

  /** Seats of the table that nobody sits on. */
  ghost function Left(seats: map<Id, Assignment>, tables: map<Id, Table>, t: Id): int
    requires t in tables
  {
    tables[t].capacity - |SittingAt(seats, t)|
  }

  /** Of the allowed tables with room for all members, t has the fewest seats left, and the least id among equals. */
  ghost predicate BestTable(scene: Scene, h: Id, members: set<Id>, seats: map<Id, Assignment>, t: Id)
    requires members <= scene.guests.Keys
  {
    && Allowed(scene, h, members, t) && |members| <= Left(seats, scene.tables, t)
    && forall u :: Allowed(scene, h, members, u) && |members| <= Left(seats, scene.tables, u) && u != t ==>
         || Left(seats, scene.tables, t) < Left(seats, scene.tables, u)
         || (Left(seats, scene.tables, t) == Left(seats, scene.tables, u) && Before(t.text, u.text))
  }

  ghost predicate NoTableHasRoom(scene: Scene, h: Id, members: set<Id>, seats: map<Id, Assignment>)
    requires members <= scene.guests.Keys
  {
    forall t :: Allowed(scene, h, members, t) ==> Left(seats, scene.tables, t) < |members|
  }

  lemma FreeIsLeft(plan: Plan, tables: map<Id, Table>, t: Id)
    requires Consistent(plan, tables) && t in tables
    ensures Free(plan, tables, t) == Left(plan.seats, tables, t)
  {
    assert |SittingAt(plan.seats, t)| == plan.Occupied(t);
  }

  lemma FitsIsRoom(plan: Plan, scene: Scene, h: Id, members: set<Id>, t: Id)
    requires Consistent(plan, scene.tables) && OfHousehold(scene, h, members)
    ensures Fits(plan, scene, members, t) <==> Allowed(scene, h, members, t) && |members| <= Left(plan.seats, scene.tables, t)
  {
    AdmissibleIsAllowed(scene, h, members, t);
    if t in scene.tables {
      FreeIsLeft(plan, scene.tables, t);
    }
  }

  lemma TightestIsBest(plan: Plan, scene: Scene, h: Id, members: set<Id>, t: Id)
    requires Consistent(plan, scene.tables) && OfHousehold(scene, h, members)
    requires TightestFit(plan, scene, members, t)
    ensures BestTable(scene, h, members, plan.seats, t)
  {
    FitsIsRoom(plan, scene, h, members, t);
    forall u | Allowed(scene, h, members, u) && |members| <= Left(plan.seats, scene.tables, u) && u != t
      ensures || Left(plan.seats, scene.tables, t) < Left(plan.seats, scene.tables, u)
              || (Left(plan.seats, scene.tables, t) == Left(plan.seats, scene.tables, u) && Before(t.text, u.text))
    {
      FitsIsRoom(plan, scene, h, members, u);
      assert Tighter(plan, scene.tables, t, u);
      FreeIsLeft(plan, scene.tables, t);
      FreeIsLeft(plan, scene.tables, u);
    }
  }

  lemma NoRoomIsFull(plan: Plan, scene: Scene, h: Id, members: set<Id>)
    requires Consistent(plan, scene.tables) && OfHousehold(scene, h, members)
    requires !exists t :: TightestFit(plan, scene, members, t)
    ensures NoTableHasRoom(scene, h, members, plan.seats)
  {
    NoFitNoRoom(plan, scene, members);
    forall t | Allowed(scene, h, members, t) ensures Left(plan.seats, scene.tables, t) < |members| {
      AdmissibleIsAllowed(scene, h, members, t);
      FreeIsLeft(plan, scene.tables, t);
    }
  }

  /** The seat of a placed guest says why it was given. */
  ghost predicate SeatedWith(a: Assignment, g: Guest, t: Id) {
    && a.guestId == g.id && a.tableId == t && a.groupKey == Household(g.householdId)
    && |a.rationale| >= 1
    && (a.rationale[0] == PlusOneWithPrimary <==> g.isPlusOne)
    && (a.rationale[0] == HouseholdTogether <==> !g.isPlusOne)
    && (ChildWithHousehold in a.rationale[1..] <==> g.isChild)
    && (AccessibleCapacity in a.rationale[1..] <==> g.accessibleRequired)
    && |a.rationale| == 1 + (if g.isChild then 1 else 0) + (if g.accessibleRequired then 1 else 0)
  }

  lemma SeatIsSeatedWith(g: Guest, t: Id)
    ensures SeatedWith(Seat(g, t), g, t)
  {
    assert SeatReasons(g)[1..] == (if g.isChild then [ChildWithHousehold] else []) +
      (if g.accessibleRequired then [AccessibleCapacity] else []);
  }

  /** What one turn of the household loop does, given who sits where and what it leaves. */
  ghost predicate Turn(scene: Scene, h: Id, members: set<Id>, before: map<Id, Assignment>, after: Plan)
    requires members <= scene.guests.Keys
  {
    if DemandsSeveral(scene, h, members) then
      members !! after.seats.Keys && MultipleRequiredTables(h) in after.hard
    else if NoTableHasRoom(scene, h, members, before) then
      members !! after.seats.Keys && GroupUnassigned(h) in after.warnings
    else
      exists t :: BestTable(scene, h, members, before, t) &&
        forall g :: g in members ==> g in after.seats && SeatedWith(after.seats[g], scene.guests[g], t)
  }

  lemma PlacedAtBest(plan: Plan, scene: Scene, h: Id, members: set<Id>, t: Id)
    requires scene.Valid() && Consistent(plan, scene.tables)
    requires OfHousehold(scene, h, members) && members !! plan.seats.Keys
    requires !DemandsSeveral(scene, h, members) && TightestFit(plan, scene, members, t)
    ensures Turn(scene, h, members, plan.seats, SeatGroup(plan, scene, members, t))
  {
    TightestIsBest(plan, scene, h, members, t);
    BestHasRoom(scene, h, members, plan.seats, t);
    GroupSeatedWith(plan, scene, members, t);
  }

  lemma BestHasRoom(scene: Scene, h: Id, members: set<Id>, seats: map<Id, Assignment>, t: Id)
    requires members <= scene.guests.Keys && BestTable(scene, h, members, seats, t)
    ensures !NoTableHasRoom(scene, h, members, seats)
  {
  }

  lemma GroupSeatedWith(plan: Plan, scene: Scene, members: set<Id>, t: Id)
    requires members <= scene.guests.Keys && members !! plan.seats.Keys
    ensures var next := SeatGroup(plan, scene, members, t);
      forall g :: g in members ==> g in next.seats && SeatedWith(next.seats[g], scene.guests[g], t)
  {
    SeatGroupSeats(plan, scene, members, t);
    forall g | g in members ensures SeatedWith(Seat(scene.guests[g], t), scene.guests[g], t) {
      SeatIsSeatedWith(scene.guests[g], t);
    }
  }

  lemma PlaceGroupTurns(plan: Plan, scene: Scene, h: Id, members: set<Id>)
    requires scene.Valid() && Consistent(plan, scene.tables)
    requires OfHousehold(scene, h, members) && members !! plan.seats.Keys
    ensures Turn(scene, h, members, plan.seats, PlaceGroup(plan, scene, h, members))
  {
    SeveralRequired(scene, h, members);
    match Judge(plan, scene, members)
    case Conflicted =>
      PlacementInConflict(plan, scene, h, members);
    case AtTable(t) =>
      PlacedAtBest(plan, scene, h, members, t);
    case NoRoom =>
      NoRoomIsFull(plan, scene, h, members);
      NoFitNoRoom(plan, scene, members);
      PlacementWithoutRoom(plan, scene, h, members);
  }

  // ---------------------------------------------------------------------------
  // Which households come before another

  ghost function Unseated(scene: Scene, seated: set<Id>, h: Id): set<Id> {
    set g | g in scene.guests && g !in seated && scene.guests[g].householdId == h
  }

  /** The household of more unseated guests comes first; of two equal ones, that with the smaller id. */
  ghost predicate ComesBefore(scene: Scene, seated: set<Id>, k: Id, h: Id) {
    || |Unseated(scene, seated, k)| > |Unseated(scene, seated, h)|
    || (|Unseated(scene, seated, k)| == |Unseated(scene, seated, h)| && Before(k.text, h.text))
  }

  /** Of the final seats, those of the guests in base and of the pending households that come before h. */
  ghost function SeatsBefore(
      scene: Scene, seated: set<Id>, pending: set<Id>, base: set<Id>, final: map<Id, Assignment>, h: Id): map<Id, Assignment>
  {
    map g | g in final && (g in base ||
      (g in scene.guests && g !in seated && scene.guests[g].householdId in pending &&
       ComesBefore(scene, seated, scene.guests[g].householdId, h))) :: final[g]
  }

  ghost predicate TurnsOut(scene: Scene, seated: set<Id>, pending: set<Id>, base: set<Id>, final: Plan, h: Id) {
    Turn(scene, h, Unseated(scene, seated, h), SeatsBefore(scene, seated, pending, base, final.seats, h), final)
  }

  lemma TurnStays(scene: Scene, h: Id, members: set<Id>, before: map<Id, Assignment>, a: Plan, b: Plan)
    requires members <= scene.guests.Keys && Turn(scene, h, members, before, a)
    requires Extends(a, b) && members !! b.seats.Keys - a.seats.Keys
    ensures Turn(scene, h, members, before, b)
  {
    var conflict, room := MultipleRequiredTables(h), GroupUnassigned(h);
    assert conflict in a.hard ==> conflict in b.hard;
    assert room in a.warnings ==> room in b.warnings;
    if !DemandsSeveral(scene, h, members) && !NoTableHasRoom(scene, h, members, before) {
      var t :| BestTable(scene, h, members, before, t) &&
        forall g :: g in members ==> g in a.seats && SeatedWith(a.seats[g], scene.guests[g], t);
      assert forall g :: g in members ==> g in b.seats && b.seats[g] == a.seats[g];
    }
  }

  /** The household that is next comes before all the others. */
  lemma NextComesBefore(scene: Scene, seated: set<Id>, pending: set<Id>, first: Id, h: Id)
    requires IsNext(scene.guests, seated, pending, first) && h in pending
    ensures h != first ==> ComesBefore(scene, seated, first, h)
    ensures !ComesBefore(scene, seated, h, first)
  {
    if h == first {
      BeforeIrreflexive(h.text);
    } else {
      GoesFirstIsBefore(scene, seated, first, h);
      NotBothBefore(scene, seated, first, h);
    }
  }

  lemma GoesFirstIsBefore(scene: Scene, seated: set<Id>, k: Id, h: Id)
    ensures GoesFirst(scene.guests, seated, k, h) <==> ComesBefore(scene, seated, k, h)
  {
    assert Members(scene.guests, seated, k) == Unseated(scene, seated, k);
    assert Members(scene.guests, seated, h) == Unseated(scene, seated, h);
  }

  lemma NotBothBefore(scene: Scene, seated: set<Id>, k: Id, h: Id)
    requires ComesBefore(scene, seated, k, h)
    ensures !ComesBefore(scene, seated, h, k)
  {
    if Before(k.text, h.text) && Before(h.text, k.text) {
      BeforeTransitive(k.text, h.text, k.text);
      BeforeIrreflexive(k.text);
    }
  }

  lemma SeatsBeforeFirst(scene: Scene, seated: set<Id>, pending: set<Id>, plan: Plan, final: Plan, first: Id)
    requires IsNext(scene.guests, seated, pending, first) && Extends(plan, final)
    ensures SeatsBefore(scene, seated, pending, plan.seats.Keys, final.seats, first) == plan.seats
  {
    var before := SeatsBefore(scene, seated, pending, plan.seats.Keys, final.seats, first);
    forall k | k in pending ensures !ComesBefore(scene, seated, k, first) {
      NextComesBefore(scene, seated, pending, first, k);
    }
    assert before.Keys == plan.seats.Keys;
  }

  lemma SeatsBeforeOther(scene: Scene, seated: set<Id>, pending: set<Id>, base: set<Id>, next: set<Id>, final: map<Id, Assignment>, first: Id, h: Id)
    requires IsNext(scene.guests, seated, pending, first) && h in pending && h != first
    requires base <= next <= base + Unseated(scene, seated, first)
    requires forall g :: g in final && g in Unseated(scene, seated, first) ==> g in next
    ensures SeatsBefore(scene, seated, pending, base, final, h) == SeatsBefore(scene, seated, pending - {first}, next, final, h)
  {
    NextComesBefore(scene, seated, pending, first, h);
    var a := SeatsBefore(scene, seated, pending, base, final, h);
    var b := SeatsBefore(scene, seated, pending - {first}, next, final, h);
    forall g ensures g in a <==> g in b {
      if g in final && g in Unseated(scene, seated, first) {
        assert g in a && g in b;
      }
    }
    assert a.Keys == b.Keys;
  }

  /** Every household of the set has unseated guests, and all of them. */
  ghost predicate PendingHouseholds(scene: Scene, seated: set<Id>, pending: set<Id>) {
    forall h :: h in pending ==> Unseated(scene, seated, h) != {}
  }

  lemma FirstTurn(plan: Plan, scene: Scene, seated: set<Id>, pending: set<Id>, first: Id)
    requires scene.Valid() && Consistent(plan, scene.tables)
    requires Unseated(scene, seated, first) != {} && Unseated(scene, seated, first) !! plan.seats.Keys
    ensures var members := Unseated(scene, seated, first);
      Turn(scene, first, members, plan.seats, PlaceGroup(plan, scene, first, members))
  {
    PlaceGroupTurns(plan, scene, first, Unseated(scene, seated, first));
  }

  lemma FirstTurnsOut(plan: Plan, next: Plan, final: Plan, scene: Scene, seated: set<Id>, pending: set<Id>, first: Id)
    requires IsNext(scene.guests, seated, pending, first)
    requires Turn(scene, first, Unseated(scene, seated, first), plan.seats, next)
    requires Extends(plan, next) && Extends(next, final) && Extends(plan, final)
    requires Unseated(scene, seated, first) !! final.seats.Keys - next.seats.Keys
    ensures TurnsOut(scene, seated, pending, plan.seats.Keys, final, first)
  {
    SeatsBeforeFirst(scene, seated, pending, plan, final, first);
    TurnStays(scene, first, Unseated(scene, seated, first), plan.seats, next, final);
  }

  lemma OtherTurnsOut(plan: Plan, next: Plan, final: Plan, scene: Scene, seated: set<Id>, pending: set<Id>, first: Id, h: Id)
    requires IsNext(scene.guests, seated, pending, first) && h in pending && h != first
    requires plan.seats.Keys <= next.seats.Keys <= plan.seats.Keys + Unseated(scene, seated, first)
    requires Unseated(scene, seated, first) !! final.seats.Keys - next.seats.Keys
    requires TurnsOut(scene, seated, pending - {first}, next.seats.Keys, final, h)
    ensures TurnsOut(scene, seated, pending, plan.seats.Keys, final, h)
  {
    SeatsBeforeOther(scene, seated, pending, plan.seats.Keys, next.seats.Keys, final.seats, first, h);
  }

  lemma MembersSplit(scene: Scene, seated: set<Id>, pending: set<Id>, first: Id)
    requires first in pending
    ensures Members(scene.guests, seated, first) == Unseated(scene, seated, first)
    ensures MembersOf(scene, seated, pending) == MembersOf(scene, seated, pending - {first}) + Unseated(scene, seated, first)
    ensures MembersOf(scene, seated, pending - {first}) !! Unseated(scene, seated, first)
  {
  }

  /** Every household in turn finds the seats of those before it, and gets what they leave. */
  lemma {:induction false} AllTurnOut(plan: Plan, scene: Scene, seated: set<Id>, pending: set<Id>)
    requires scene.Valid() && Consistent(plan, scene.tables)
    requires PendingHouseholds(scene, seated, pending)
    requires MembersOf(scene, seated, pending) !! plan.seats.Keys
    ensures var final := PlaceAll(plan, scene, seated, pending);
      forall h :: h in pending ==> TurnsOut(scene, seated, pending, plan.seats.Keys, final, h)
    decreases pending
  {
    if pending != {} {
      NextExists(scene.guests, seated, pending);
      var first :| IsNext(scene.guests, seated, pending, first) &&
        PlaceAll(plan, scene, seated, pending) ==
        PlaceAll(PlaceGroup(plan, scene, first, Members(scene.guests, seated, first)), scene, seated, pending - {first});
      MembersSplit(scene, seated, pending, first);
      var members := Unseated(scene, seated, first);
      var next := PlaceGroup(plan, scene, first, members);
      PlaceGroupSettles(plan, scene, first, members);
      PlaceAllSettles(next, scene, seated, pending - {first});
      AllTurnOut(next, scene, seated, pending - {first});
      OneMoreTurn(plan, next, PlaceAll(next, scene, seated, pending - {first}), scene, seated, pending, first);
    }
  }

  lemma OneMoreTurn(plan: Plan, next: Plan, final: Plan, scene: Scene, seated: set<Id>, pending: set<Id>, first: Id)
    requires scene.Valid() && Consistent(plan, scene.tables) && PendingHouseholds(scene, seated, pending)
    requires IsNext(scene.guests, seated, pending, first) && Unseated(scene, seated, first) !! plan.seats.Keys
    requires next == PlaceGroup(plan, scene, first, Unseated(scene, seated, first))
    requires Extends(plan, next) && next.seats.Keys <= plan.seats.Keys + Unseated(scene, seated, first)
    requires Extends(next, final) && final.seats.Keys <= next.seats.Keys + MembersOf(scene, seated, pending - {first})
    requires forall h :: h in pending - {first} ==> TurnsOut(scene, seated, pending - {first}, next.seats.Keys, final, h)
    ensures forall h :: h in pending ==> TurnsOut(scene, seated, pending, plan.seats.Keys, final, h)
  {
    ExtendsThrough(plan, next, final);
    FirstUntouched(next, final, scene, seated, pending, first);
    FirstTurn(plan, scene, seated, pending, first);
    FirstTurnsOut(plan, next, final, scene, seated, pending, first);
    forall h | h in pending && h != first ensures TurnsOut(scene, seated, pending, plan.seats.Keys, final, h) {
      OtherTurnsOut(plan, next, final, scene, seated, pending, first, h);
    }
  }

  lemma FirstUntouched(next: Plan, final: Plan, scene: Scene, seated: set<Id>, pending: set<Id>, first: Id)
    requires first in pending
    requires final.seats.Keys <= next.seats.Keys + MembersOf(scene, seated, pending - {first})
    ensures Unseated(scene, seated, first) !! final.seats.Keys - next.seats.Keys
  {
    MembersSplit(scene, seated, pending, first);
  }

  lemma ExtendsThrough(a: Plan, b: Plan, c: Plan)
    requires Extends(a, b) && Extends(b, c)
    ensures Extends(a, c)
  {
    assert a.hard <= c.hard && a.warnings <= c.warnings;
  }

  /**
   In the final allocation every household with guests that no existing assignment seats got, as a
   whole, the allowed table with the fewest seats left, least id first, when only the guests of
   existing assignments and of the households before it sat; or it got none for want of room or
   for contradictory demands.
   */
  lemma EveryHouseholdInTurn(scene: Scene, es: seq<Existing>, hard: seq<Issue>, h: Id)
    requires scene.Valid() && h in Households(scene.guests, Seated(scene, es, hard))
    ensures var seated := Seated(scene, es, hard);
      TurnsOut(scene, seated, Households(scene.guests, seated), seated, Allocate(scene, es, hard), h)
  {
    var start := Start(hard);
    forall t ensures SittingAt(start.seats, t) == {} {}
    AllExistingConsistent(start, scene.tables, es);
    var before := SeatAllExisting(start, scene.tables, es);
    var seated := before.seats.Keys;
    HouseholdsHaveMembers(scene, seated);
    AllTurnOut(before, scene, seated, Households(scene.guests, seated));
  }

  // ---------------------------------------------------------------------------
  // What is reported of the households

  /** The issues of b beyond those of a are about pending households that have no seat, and say why. */
  ghost predicate NewIssues(a: Plan, b: Plan, scene: Scene, seated: set<Id>, pending: set<Id>) {
    && (forall w :: w in b.warnings && w !in a.warnings ==>
          exists h :: h in pending && w == GroupUnassigned(h) && Unseated(scene, seated, h) !! b.seats.Keys &&
            !DemandsSeveral(scene, h, Unseated(scene, seated, h)))
    && (forall w :: w in b.hard && w !in a.hard ==>
          exists h :: h in pending && w == MultipleRequiredTables(h) && Unseated(scene, seated, h) !! b.seats.Keys &&
            DemandsSeveral(scene, h, Unseated(scene, seated, h)))
  }

  lemma FirstIssues(plan: Plan, scene: Scene, seated: set<Id>, pending: set<Id>, first: Id)
    requires scene.Valid() && Consistent(plan, scene.tables) && first in pending
    requires Unseated(scene, seated, first) != {} && Unseated(scene, seated, first) !! plan.seats.Keys
    ensures NewIssues(plan, PlaceGroup(plan, scene, first, Unseated(scene, seated, first)), scene, seated, pending)
  {
    SeveralRequired(scene, first, Unseated(scene, seated, first));
  }

  lemma IssuesStay(a: Plan, b: Plan, c: Plan, scene: Scene, seated: set<Id>, pending: set<Id>, first: Id)
    requires first in pending && Extends(b, c)
    requires NewIssues(a, b, scene, seated, {first}) && NewIssues(b, c, scene, seated, pending - {first})
    requires Unseated(scene, seated, first) !! c.seats.Keys - b.seats.Keys
    ensures NewIssues(a, c, scene, seated, pending)
  {
    forall w | w in c.warnings && w !in a.warnings
      ensures exists h :: h in pending && w == GroupUnassigned(h) && Unseated(scene, seated, h) !! c.seats.Keys &&
                !DemandsSeveral(scene, h, Unseated(scene, seated, h))
    {
      if w in b.warnings {
        assert w == GroupUnassigned(first);
      }
    }
    forall w | w in c.hard && w !in a.hard
      ensures exists h :: h in pending && w == MultipleRequiredTables(h) && Unseated(scene, seated, h) !! c.seats.Keys &&
                DemandsSeveral(scene, h, Unseated(scene, seated, h))
    {
      if w in b.hard {
        assert w == MultipleRequiredTables(first);
      }
    }
  }

  lemma {:induction false} AllIssues(plan: Plan, scene: Scene, seated: set<Id>, pending: set<Id>)
    requires scene.Valid() && Consistent(plan, scene.tables)
    requires PendingHouseholds(scene, seated, pending)
    requires MembersOf(scene, seated, pending) !! plan.seats.Keys
    ensures NewIssues(plan, PlaceAll(plan, scene, seated, pending), scene, seated, pending)
    decreases pending
  {
    if pending != {} {
      NextExists(scene.guests, seated, pending);
      var first :| IsNext(scene.guests, seated, pending, first) &&
        PlaceAll(plan, scene, seated, pending) ==
        PlaceAll(PlaceGroup(plan, scene, first, Members(scene.guests, seated, first)), scene, seated, pending - {first});
      MembersSplit(scene, seated, pending, first);
      var members := Unseated(scene, seated, first);
      var next := PlaceGroup(plan, scene, first, members);
      PlaceGroupSettles(plan, scene, first, members);
      PlaceAllSettles(next, scene, seated, pending - {first});
      AllIssues(next, scene, seated, pending - {first});
      FirstIssues(plan, scene, seated, {first}, first);
      IssuesStay(plan, next, PlaceAll(next, scene, seated, pending - {first}), scene, seated, pending, first);
    }
  }

  /** No household is reported that has a seat, or for the wrong reason. */
  lemma HouseholdsReportedRightly(scene: Scene, es: seq<Existing>, hard: seq<Issue>)
    requires scene.Valid()
    ensures var seated := Seated(scene, es, hard);
      NewIssues(SeatAllExisting(Start(hard), scene.tables, es), Allocate(scene, es, hard),
                scene, seated, Households(scene.guests, seated))
  {
    var start := Start(hard);
    forall t ensures SittingAt(start.seats, t) == {} {}
    AllExistingConsistent(start, scene.tables, es);
    var before := SeatAllExisting(start, scene.tables, es);
    var seated := before.seats.Keys;
    HouseholdsHaveMembers(scene, seated);
    AllIssues(before, scene, seated, Households(scene.guests, seated));
  }

  lemma HouseholdsHaveMembers(scene: Scene, seated: set<Id>)
    ensures PendingHouseholds(scene, seated, Households(scene.guests, seated))
  {
    forall k | k in Households(scene.guests, seated) ensures Unseated(scene, seated, k) != {} {
      var g :| g in scene.guests && g !in seated && scene.guests[g].householdId == k;
      assert g in Unseated(scene, seated, k);
    }
  }

  // ---------------------------------------------------------------------------
  // Existing assignments, one after another

  /** An existing assignment is honoured exactly if its table exists, its guest has no seat yet and somebody can still sit there. */
  ghost predicate Honoured(tables: map<Id, Table>, seats: map<Id, Assignment>, e: Existing) {
    e.tableId in tables && e.guestId !in seats && |SittingAt(seats, e.tableId)| < tables[e.tableId].capacity
  }

  /** What the program reports of one that is not honoured. */
  ghost predicate Refusal(tables: map<Id, Table>, seats: map<Id, Assignment>, e: Existing, issue: Issue) {
    match issue
    case LockedAssignmentTableMissing(g) => g == e.guestId && e.tableId !in tables
    case DuplicateAssignment(g) => g == e.guestId && e.tableId in tables && e.guestId in seats
    case OverCapacity(t) => t == e.tableId && t in tables && e.guestId !in seats && |SittingAt(seats, t)| >= tables[t].capacity
    case _ => false
  }

  /** Each existing assignment in turn either seats its guest as it says or adds one conflict that says why not. */
  lemma ExistingInTurn(tables: map<Id, Table>, hard: seq<Issue>, es: seq<Existing>, i: nat)
    requires i < |es|
    ensures var before, after, e := AfterExisting(tables, hard, es, i), AfterExisting(tables, hard, es, i + 1), es[i];
      if Honoured(tables, before.seats, e) then
        && after.hard == before.hard && after.seats.Keys == before.seats.Keys + {e.guestId}
        && (forall g :: g in before.seats ==> g in after.seats && after.seats[g] == before.seats[g])
        && (var a := after.seats[e.guestId];
            a.guestId == e.guestId && a.tableId == e.tableId && a.groupKey == Locked(e.guestId) && |a.rationale| == 1 &&
            (a.rationale[0] == LockedAssignment <==> e.locked) && (a.rationale[0] == ExistingAssignment <==> !e.locked))
      else
        && after.seats == before.seats && |after.hard| == |before.hard| + 1 && before.hard <= after.hard
        && Refusal(tables, before.seats, e, after.hard[|before.hard|])
  {
    ExistingCounted(tables, hard, es, i);
    OneMoreExisting(tables, hard, es, i);
  }

  lemma ExistingCounted(tables: map<Id, Table>, hard: seq<Issue>, es: seq<Existing>, i: nat)
    requires i <= |es|
    ensures var plan := AfterExisting(tables, hard, es, i);
      Consistent(plan, tables) && forall t :: |SittingAt(plan.seats, t)| == plan.Occupied(t)
  {
    var start := Start(hard);
    forall t ensures SittingAt(start.seats, t) == {} {}
    AllExistingConsistent(start, tables, es[..i]);
  }
}

/** The allocation as the program computes it, from lists and with maps updated in loops. */
module SeatingAlgorithm {
  import opened Wrappers
  import opened Ordering
  import opened Seating
  import opened SeatingProperties

  // ---------------------------------------------------------------------------
  // Lists as maps by id

  ghost predicate UniqueGuests(gs: seq<Guest>) {
    forall i, j :: 0 <= i < j < |gs| ==> gs[i].id != gs[j].id
  }

  ghost predicate UniqueTables(ts: seq<Table>) {
    forall i, j :: 0 <= i < j < |ts| ==> ts[i].id != ts[j].id
  }

  function GuestsById(gs: seq<Guest>): map<Id, Guest> {
    if gs == [] then map[] else GuestsById(gs[..|gs| - 1])[gs[|gs| - 1].id := gs[|gs| - 1]]
  }

  function TablesById(ts: seq<Table>): map<Id, Table> {
    if ts == [] then map[] else TablesById(ts[..|ts| - 1])[ts[|ts| - 1].id := ts[|ts| - 1]]
  }

  lemma {:induction false} GuestsIndexed(gs: seq<Guest>)
    requires UniqueGuests(gs)
    ensures forall g :: g in gs ==> g.id in GuestsById(gs) && GuestsById(gs)[g.id] == g
    ensures forall id :: id in GuestsById(gs) ==> GuestsById(gs)[id] in gs && GuestsById(gs)[id].id == id
  {
    if gs != [] {
      GuestsIndexed(gs[..|gs| - 1]);
      assert gs == gs[..|gs| - 1] + [gs[|gs| - 1]];
    }
  }

  lemma {:induction false} TablesIndexed(ts: seq<Table>)
    requires UniqueTables(ts)
    ensures forall t :: t in ts ==> t.id in TablesById(ts) && TablesById(ts)[t.id] == t
    ensures forall id :: id in TablesById(ts) ==> TablesById(ts)[id] in ts && TablesById(ts)[id].id == id
  {
    if ts != [] {
      TablesIndexed(ts[..|ts| - 1]);
      assert ts == ts[..|ts| - 1] + [ts[|ts| - 1]];
    }
  }

  // ---------------------------------------------------------------------------
  // Existing assignments

  /** order lists the keys in the order in which a JavaScript Map received them. */
  ghost predicate InOrder(order: seq<Id>, keys: set<Id>) {
    Distinct(order) && Elements(order) == keys
  }

  lemma InOrderAppend(order: seq<Id>, keys: set<Id>, key: Id)
    requires InOrder(order, keys) && key !in keys
    ensures InOrder(order + [key], keys + {key})
  {
    assert key !in order;
  }

  method SeatExistingAssignments(tables: map<Id, Table>, es: seq<Existing>, hard: seq<Issue>)
    returns (plan: Plan, order: seq<Id>)
    ensures plan == SeatAllExisting(Start(hard), tables, es)
    ensures InOrder(order, plan.seats.Keys)
  {
    plan, order := Start(hard), [];
    for i := 0 to |es|
      invariant plan == SeatAllExisting(Start(hard), tables, es[..i])
      invariant InOrder(order, plan.seats.Keys)
    {
      assert es[..i + 1][..i] == es[..i];
      var existing := es[i];
      if existing.tableId !in tables {
        plan := plan.(hard := plan.hard + [LockedAssignmentTableMissing(existing.guestId)]);
      } else if existing.guestId in plan.seats {
        plan := plan.(hard := plan.hard + [DuplicateAssignment(existing.guestId)]);
      } else if plan.Occupied(existing.tableId) + 1 > tables[existing.tableId].capacity {
        plan := plan.(hard := plan.hard + [OverCapacity(existing.tableId)]);
      } else {
        InOrderAppend(order, plan.seats.Keys, existing.guestId);
        plan := plan.Adding(plan.seats[existing.guestId := AcceptExisting(existing)], existing.tableId, 1);
        order := order + [existing.guestId];
      }
    }
    assert es[..|es|] == es;
  }

  // ---------------------------------------------------------------------------
  // Household groups

  datatype Group = Group(household: Id, guests: seq<Guest>)

  /** gs lists the given guests, each once. */
  ghost predicate Lists(gs: seq<Guest>, guests: map<Id, Guest>, members: set<Id>) {
    && UniqueGuests(gs)
    && (forall g :: g in gs ==> g.id in members && g.id in guests && guests[g.id] == g)
    && (forall id :: id in members ==> id in guests && guests[id] in gs && guests[id].id == id)
  }

  ghost predicate Grouped(groups: map<Id, seq<Guest>>, guests: map<Id, Guest>, seated: set<Id>) {
    && groups.Keys == Households(guests, seated)
    && forall h :: h in groups ==> Lists(groups[h], guests, Members(guests, seated, h))
  }

  lemma HouseholdsOneMore(guests: map<Id, Guest>, seated: set<Id>, g: Guest)
    requires g.id !in guests && g.id !in seated
    ensures Households(guests[g.id := g], seated) == Households(guests, seated) + {g.householdId}
  {
    var more := guests[g.id := g];
    forall k ensures k in Households(more, seated) <==> k in Households(guests, seated) + {g.householdId} {
      if k in Households(guests, seated) {
        var m :| m in guests && m !in seated && guests[m].householdId == k;
        assert more[m].householdId == k;
      }
      if k == g.householdId { assert more[g.id].householdId == k; }
    }
  }

  lemma GuestsOneMore(gs: seq<Guest>, i: nat)
    requires UniqueGuests(gs) && i < |gs|
    ensures GuestsById(gs[..i + 1]) == GuestsById(gs[..i])[gs[i].id := gs[i]]
    ensures gs[i].id !in GuestsById(gs[..i])
  {
    assert gs[..i + 1][..i] == gs[..i];
    GuestsIndexed(gs[..i]);
  }

  lemma GroupedOneMore(groups: map<Id, seq<Guest>>, guests: map<Id, Guest>, seated: set<Id>, g: Guest)
    requires Grouped(groups, guests, seated) && g.id !in guests && g.id !in seated
    ensures var current := if g.householdId in groups then groups[g.householdId] else [];
      Grouped(groups[g.householdId := current + [g]], guests[g.id := g], seated)
  {
    var h := g.householdId;
    var current := if h in groups then groups[h] else [];
    var more := guests[g.id := g];
    HouseholdsOneMore(guests, seated, g);
    forall k | k in groups[h := current + [g]]
      ensures Lists(groups[h := current + [g]][k], more, Members(more, seated, k))
    {
      if k == h {
        assert Members(more, seated, h) == Members(guests, seated, h) + {g.id};
        assert h !in groups ==> Members(guests, seated, h) == {};
        assert Lists(current, guests, Members(guests, seated, h));
      } else {
        assert Members(more, seated, k) == Members(guests, seated, k);
      }
    }
  }

  method GroupByHousehold(gs: seq<Guest>, seated: set<Id>) returns (groups: map<Id, seq<Guest>>, order: seq<Id>)
    requires UniqueGuests(gs)
    ensures Grouped(groups, GuestsById(gs), seated)
    ensures InOrder(order, groups.Keys)
  {
    groups, order := map[], [];
    for i := 0 to |gs|
      invariant Grouped(groups, GuestsById(gs[..i]), seated)
      invariant InOrder(order, groups.Keys)
    {
      GuestsOneMore(gs, i);
      var guest := gs[i];
      if guest.id !in seated {
        GroupedOneMore(groups, GuestsById(gs[..i]), seated, guest);
        var current := if guest.householdId in groups then groups[guest.householdId] else [];
        if guest.householdId !in groups {
          InOrderAppend(order, groups.Keys, guest.householdId);
          order := order + [guest.householdId];
        }
        groups := groups[guest.householdId := current + [guest]];
      } else {
        SeatedNotGrouped(groups, GuestsById(gs[..i]), seated, guest);
      }
    }
    assert gs[..|gs|] == gs;
  }

  lemma SeatedNotGrouped(groups: map<Id, seq<Guest>>, guests: map<Id, Guest>, seated: set<Id>, g: Guest)
    requires Grouped(groups, guests, seated) && g.id !in guests && g.id in seated
    ensures Grouped(groups, guests[g.id := g], seated)
  {
    var more := guests[g.id := g];
    assert forall h :: Members(more, seated, h) == Members(guests, seated, h);
    forall h ensures h in Households(more, seated) <==> h in Households(guests, seated) {
      assert Members(more, seated, h) == Members(guests, seated, h);
      assert h in Households(more, seated) <==> Members(more, seated, h) != {};
      assert h in Households(guests, seated) <==> Members(guests, seated, h) != {};
    }
  }

  // ---------------------------------------------------------------------------
  // One household

  /** The constraint names the household of the group or one of its guests. */
  predicate Names(c: Constraint, gs: seq<Guest>) {
    || (gs != [] && c.householdId == Some(gs[0].householdId))
    || (exists i :: 0 <= i < |gs| && c.guestId == Some(gs[i].id))
  }

  predicate Requires(c: Constraint, gs: seq<Guest>) {
    c.required && c.kind.MustBeAtTable? && Truthy(c.tableId) && Names(c, gs)
  }

  function RequiredOf(cs: seq<Constraint>, gs: seq<Guest>): (ids: seq<Id>)
    ensures Distinct(ids)
    ensures forall id :: id in ids <==> exists c :: c in cs && Requires(c, gs) && c.tableId.value == id
  {
    var naming := Filter(cs, c => Requires(c, gs));
    var ids := seq(|naming|, i requires 0 <= i < |naming| =>
      assert naming[i] in naming; naming[i].tableId.value);
    assert forall id :: id in ids ==> exists c :: c in naming && c.tableId.value == id;
    assert forall c :: c in naming ==> Requires(c, gs) && c.tableId.value in ids by {
      forall c | c in naming ensures Requires(c, gs) && c.tableId.value in ids {
        var i :| 0 <= i < |naming| && naming[i] == c;
        assert ids[i] == c.tableId.value;
      }
    }
    Dedupe(ids)
  }

  predicate ForbidsFor(cs: seq<Constraint>, gs: seq<Guest>, t: Id) {
    exists i :: 0 <= i < |cs| && cs[i].required && cs[i].kind.MustNotBeAtTable? &&
      cs[i].tableId == Some(t) && Names(cs[i], gs)
  }

  function NeedingAccess(gs: seq<Guest>): seq<Guest> {
    Filter(gs, (g: Guest) => g.accessibleRequired)
  }

  /** The filters a table passes, in the program's order; required holds at most one id. */
  predicate Candidate(plan: Plan, cs: seq<Constraint>, gs: seq<Guest>, required: seq<Id>, t: Table) {
    && (!t.locked || (required != [] && required[0] == t.id))
    && (required == [] || t.id == required[0])
    && !ForbidsFor(cs, gs, t.id)
    && t.capacity - plan.Occupied(t.id) >= |gs|
    && |NeedingAccess(gs)| <= AccessibleSeats(t)
  }

  predicate CloserFit(plan: Plan, seats: nat, left: Table, right: Table) {
    var leftRemaining := left.capacity - plan.Occupied(left.id) - seats;
    var rightRemaining := right.capacity - plan.Occupied(right.id) - seats;
    leftRemaining < rightRemaining || (leftRemaining == rightRemaining && Before(left.id.text, right.id.text))
  }

  /** gs is the household group of the scene that members describes. */
  ghost predicate Represents(gs: seq<Guest>, scene: Scene, members: set<Id>) {
    && members <= scene.guests.Keys && members != {}
    && Lists(gs, scene.guests, members)
    && forall g, h :: g in gs && h in gs ==> g.householdId == h.householdId
  }

  lemma ListsFront(gs: seq<Guest>, guests: map<Id, Guest>, members: set<Id>)
    requires Lists(gs, guests, members) && gs != []
    ensures gs[|gs| - 1].id in members
    ensures Lists(gs[..|gs| - 1], guests, members - {gs[|gs| - 1].id})
  {
    var front, last := gs[..|gs| - 1], gs[|gs| - 1];
    assert last in gs;
    assert gs == front + [last];
    assert forall g :: g in front ==> g in gs && g.id != last.id;
    forall id | id in members - {last.id} ensures guests[id] in front {
      assert guests[id] in gs && guests[id] != last;
    }
  }

  lemma {:induction false} ListsSize(gs: seq<Guest>, guests: map<Id, Guest>, members: set<Id>)
    requires Lists(gs, guests, members)
    ensures |gs| == |members|
  {
    if gs != [] {
      ListsFront(gs, guests, members);
      ListsSize(gs[..|gs| - 1], guests, members - {gs[|gs| - 1].id});
    } else {
      assert members == {};
    }
  }

  lemma NamesConcerns(gs: seq<Guest>, scene: Scene, members: set<Id>, c: Constraint)
    requires Represents(gs, scene, members)
    ensures Names(c, gs) == Concerns(scene, members, c)
  {
    if Names(c, gs) {
      var g := if c.householdId == Some(gs[0].householdId) then gs[0] else
        var i :| 0 <= i < |gs| && c.guestId == Some(gs[i].id); gs[i];
      assert g in gs && g.id in members;
    }
    if Concerns(scene, members, c) {
      var id :| id in members && (c.householdId == Some(scene.guests[id].householdId) || c.guestId == Some(id));
      assert scene.guests[id] in gs && gs[0] in gs;
      var i :| 0 <= i < |gs| && gs[i] == scene.guests[id];
      assert gs[i].id == id;
    }
  }

  lemma RequiredAgree(gs: seq<Guest>, scene: Scene, members: set<Id>, cs: seq<Constraint>)
    requires Represents(gs, scene, members) && scene.rules == Elements(cs)
    ensures Elements(RequiredOf(cs, gs)) == RequiredTables(scene, members)
    ensures |RequiredOf(cs, gs)| == |RequiredTables(scene, members)|
  {
    forall c ensures Names(c, gs) == Concerns(scene, members, c) {
      NamesConcerns(gs, scene, members, c);
    }
    DistinctSize(RequiredOf(cs, gs));
  }

  lemma ForbidsAgree(gs: seq<Guest>, scene: Scene, members: set<Id>, cs: seq<Constraint>, t: Id)
    requires Represents(gs, scene, members) && scene.rules == Elements(cs)
    ensures ForbidsFor(cs, gs, t) == Forbidden(scene, members, t)
  {
    forall c ensures Names(c, gs) == Concerns(scene, members, c) {
      NamesConcerns(gs, scene, members, c);
    }
    if Forbidden(scene, members, t) {
      var c :| c in scene.rules && c.required && c.kind.MustNotBeAtTable? &&
        c.tableId == Some(t) && Concerns(scene, members, c);
      var i :| 0 <= i < |cs| && cs[i] == c;
      assert Names(cs[i], gs);
    }
  }

  lemma {:induction false} AccessAgree(gs: seq<Guest>, scene: Scene, members: set<Id>)
    requires members <= scene.guests.Keys && Lists(gs, scene.guests, members)
    ensures |NeedingAccess(gs)| == |NeedAccess(scene, members)|
  {
    if gs == [] {
      ListsSize(gs, scene.guests, members);
      assert NeedAccess(scene, members) == {};
    } else {
      var last := gs[|gs| - 1];
      var rest := members - {last.id};
      ListsFront(gs, scene.guests, members);
      AccessAgree(gs[..|gs| - 1], scene, rest);
      NeedAccessOneMore(scene, rest, last.id);
      assert rest + {last.id} == members;
      assert last in gs;
    }
  }

  lemma NeedAccessOneMore(scene: Scene, members: set<Id>, id: Id)
    requires members + {id} <= scene.guests.Keys && id !in members
    ensures |NeedAccess(scene, members + {id})| ==
            |NeedAccess(scene, members)| + (if scene.guests[id].accessibleRequired then 1 else 0)
  {
    assert NeedAccess(scene, members + {id}) ==
      NeedAccess(scene, members) + (if scene.guests[id].accessibleRequired then {id} else {});
  }

  lemma CandidateFits(
      plan: Plan, scene: Scene, members: set<Id>, cs: seq<Constraint>, gs: seq<Guest>,
      required: seq<Id>, t: Table)
    requires scene.Valid() && Represents(gs, scene, members) && scene.rules == Elements(cs)
    requires required == RequiredOf(cs, gs) && |required| <= 1
    requires t.id in scene.tables && scene.tables[t.id] == t
    ensures Candidate(plan, cs, gs, required, t) == Fits(plan, scene, members, t.id)
  {
    RequiredAgree(gs, scene, members, cs);
    ForbidsAgree(gs, scene, members, cs, t.id);
    AccessAgree(gs, scene, members);
    ListsSize(gs, scene.guests, members);
    SingletonIsItsElement(required, RequiredTables(scene, members), t.id);
  }

  lemma SingletonIsItsElement(ids: seq<Id>, s: set<Id>, t: Id)
    requires Elements(ids) == s && |ids| <= 1
    ensures (ids == []) == (s == {})
    ensures (ids != [] && ids[0] == t) == (s == {t})
  {
    if ids != [] {
      assert ids == [ids[0]];
      assert s == {ids[0]};
    }
  }

  lemma CloserFitOrders(plan: Plan, seats: nat)
    ensures StrictWeak((left: Table, right: Table) => CloserFit(plan, seats, left, right))
  {
    BeforeIsTotal();
  }

  lemma HeadIsTightest(plan: Plan, scene: Scene, members: set<Id>, seats: nat, sorted: seq<Table>)
    requires members <= scene.guests.Keys && sorted != []
    requires Sorted(sorted, (left: Table, right: Table) => CloserFit(plan, seats, left, right))
    requires forall t :: t in sorted ==> t.id in scene.tables && scene.tables[t.id] == t && Fits(plan, scene, members, t.id)
    requires forall u :: Fits(plan, scene, members, u) ==> scene.tables[u] in sorted && scene.tables[u].id == u
    ensures TightestFit(plan, scene, members, sorted[0].id)
  {
    var head := sorted[0];
    forall u | Fits(plan, scene, members, u) && u != head.id
      ensures Tighter(plan, scene.tables, head.id, u)
    {
      var other := scene.tables[u];
      var j :| 0 <= j < |sorted| && sorted[j] == other;
      assert !CloserFit(plan, seats, other, head);
      BeforeConnected(head.id.text, u.text);
    }
  }

  /** candidates[0] after the filters and the sort, if there is any. */
  method TightestTable(
      plan: Plan, tables: seq<Table>, cs: seq<Constraint>, gs: seq<Guest>, required: seq<Id>,
      ghost scene: Scene, ghost members: set<Id>)
    returns (best: Option<Table>)
    requires scene.Valid() && Represents(gs, scene, members) && scene.rules == Elements(cs)
    requires UniqueTables(tables) && scene.tables == TablesById(tables)
    requires required == RequiredOf(cs, gs) && |required| <= 1
    ensures Judge(plan, scene, members) == if best.Some? then AtTable(best.value.id) else NoRoom
  {
    TablesIndexed(tables);
    forall t | t in tables
      ensures Candidate(plan, cs, gs, required, t) == Fits(plan, scene, members, t.id)
    {
      CandidateFits(plan, scene, members, cs, gs, required, t);
    }
    var candidates := Filter(tables, t => Candidate(plan, cs, gs, required, t));
    assert forall t :: Fits(plan, scene, members, t) ==> scene.tables[t] in candidates;
    var closer := (left: Table, right: Table) => CloserFit(plan, |gs|, left, right);
    CloserFitOrders(plan, |gs|);
    SortMembers(candidates, closer);
    var sorted := Sort(candidates, closer);
    RequiredAgree(gs, scene, members, cs);
    if sorted == [] {
      assert forall t :: !Fits(plan, scene, members, t);
      return None;
    }
    SortCorrect(candidates, closer);
    HeadIsTightest(plan, scene, members, |gs|, sorted);
    JudgedAtTightestFit(plan, scene, members, sorted[0].id);
    return Some(sorted[0]);
  }

  ghost function Ids(gs: seq<Guest>): set<Id> {
    set g | g in gs :: g.id
  }

  /** The first j members have been given seats at t. */
  ghost predicate SeatedUpTo(
      seats: map<Id, Assignment>, now: map<Id, Assignment>, order: seq<Id>,
      gs: seq<Guest>, guests: map<Id, Guest>, j: nat, t: Id)
    requires j <= |gs|
  {
    && Ids(gs[..j]) <= guests.Keys
    && now == seats + GroupSeats(guests, Ids(gs[..j]), t)
    && InOrder(order, now.Keys)
  }

  lemma SeatOneMore(
      seats: map<Id, Assignment>, now: map<Id, Assignment>, order: seq<Id>,
      gs: seq<Guest>, guests: map<Id, Guest>, j: nat, t: Id)
    requires j < |gs| && SeatedUpTo(seats, now, order, gs, guests, j, t)
    requires gs[j].id in guests && guests[gs[j].id] == gs[j]
    requires gs[j].id !in Ids(gs[..j]) && gs[j].id !in seats
    ensures SeatedUpTo(seats, now[gs[j].id := Seat(gs[j], t)], order + [gs[j].id], gs, guests, j + 1, t)
  {
    var id, seat := gs[j].id, Seat(gs[j], t);
    IdsOneMore(gs, j);
    GroupSeatsOneMore(guests, Ids(gs[..j]), gs[j], t);
    AddedLast(seats, GroupSeats(guests, Ids(gs[..j]), t), id, seat);
    InOrderAppend(order, now.Keys, id);
  }

  lemma IdsOneMore(gs: seq<Guest>, j: nat)
    requires j < |gs|
    ensures Ids(gs[..j + 1]) == Ids(gs[..j]) + {gs[j].id}
  {
    assert gs[..j + 1] == gs[..j] + [gs[j]];
  }

  lemma AddedLast(seats: map<Id, Assignment>, more: map<Id, Assignment>, id: Id, seat: Assignment)
    ensures seats + more[id := seat] == (seats + more)[id := seat]
    ensures (seats + more)[id := seat].Keys == (seats + more).Keys + {id}
  {
  }

  lemma GroupSeatsOneMore(guests: map<Id, Guest>, members: set<Id>, g: Guest, t: Id)
    requires members <= guests.Keys && g.id in guests && guests[g.id] == g
    ensures GroupSeats(guests, members + {g.id}, t) == GroupSeats(guests, members, t)[g.id := Seat(g, t)]
  {
  }

  lemma ListsAt(gs: seq<Guest>, guests: map<Id, Guest>, members: set<Id>, j: nat)
    requires Lists(gs, guests, members) && j < |gs|
    ensures gs[j].id in members && gs[j].id in guests && guests[gs[j].id] == gs[j]
    ensures gs[j].id !in Ids(gs[..j])
  {
    assert gs[j] in gs;
  }

  lemma AllIds(gs: seq<Guest>, guests: map<Id, Guest>, members: set<Id>)
    requires Lists(gs, guests, members)
    ensures Ids(gs) == members
  {
    forall id | id in members ensures id in Ids(gs) { assert guests[id] in gs; }
  }

  /** Seats the members one after another. */
  method SeatMembers(
      seats: map<Id, Assignment>, order: seq<Id>, gs: seq<Guest>, t: Id,
      ghost guests: map<Id, Guest>, ghost members: set<Id>)
    returns (now: map<Id, Assignment>, order': seq<Id>)
    requires Lists(gs, guests, members) && members <= guests.Keys && members !! seats.Keys
    requires InOrder(order, seats.Keys)
    ensures now == seats + GroupSeats(guests, members, t)
    ensures InOrder(order', now.Keys)
  {
    now, order' := seats, order;
    for j := 0 to |gs|
      invariant SeatedUpTo(seats, now, order', gs, guests, j, t)
    {
      ListsAt(gs, guests, members, j);
      SeatOneMore(seats, now, order', gs, guests, j, t);
      now := now[gs[j].id := Seat(gs[j], t)];
      order' := order' + [gs[j].id];
    }
    assert gs[..|gs|] == gs;
    AllIds(gs, guests, members);
  }

  method PlaceHousehold(
      plan: Plan, order: seq<Id>, group: Group, tables: seq<Table>, cs: seq<Constraint>,
      ghost scene: Scene, ghost members: set<Id>)
    returns (next: Plan, order': seq<Id>)
    requires scene.Valid() && Represents(group.guests, scene, members) && scene.rules == Elements(cs)
    requires UniqueTables(tables) && scene.tables == TablesById(tables)
    requires members !! plan.seats.Keys && InOrder(order, plan.seats.Keys)
    ensures next == PlaceGroup(plan, scene, group.household, members)
    ensures InOrder(order', next.seats.Keys)
  {
    order' := order;
    var required := RequiredOf(cs, group.guests);
    RequiredAgree(group.guests, scene, members, cs);
    if |required| > 1 {
      next := plan.(hard := plan.hard + [MultipleRequiredTables(group.household)]);
      return;
    }
    var best := TightestTable(plan, tables, cs, group.guests, required, scene, members);
    if best.None? {
      next := plan.(warnings := plan.warnings + [GroupUnassigned(group.household)]);
      return;
    }
    var t := best.value.id;
    ListsSize(group.guests, scene.guests, members);
    var seats;
    seats, order' := SeatMembers(plan.seats, order, group.guests, t, scene.guests, members);
    next := plan.Adding(seats, t, |group.guests|);
  }

  // ---------------------------------------------------------------------------
  // All households

  predicate LargerFirst(a: Group, b: Group) {
    |b.guests| < |a.guests| ||
    (|a.guests| == |b.guests| && Before(a.household.text, b.household.text))
  }

  /** The group keys carry a common prefix, so comparing them compares the households. */
  lemma GroupKeysCompareAsHouseholds(prefix: string, a: Id, b: Id)
    ensures Before(prefix + a.text, prefix + b.text) == Before(a.text, b.text)
  {
    BeforeSamePrefix(prefix, a.text, b.text);
  }

  /** queue holds the groups of the pending households, each when its turn comes. */
  ghost predicate Queued(queue: seq<Group>, scene: Scene, seated: set<Id>, pending: set<Id>) {
    if queue == [] then pending == {}
    else
      var h := queue[0].household;
      && IsNext(scene.guests, seated, pending, h)
      && Represents(queue[0].guests, scene, Members(scene.guests, seated, h))
      && Queued(queue[1..], scene, seated, pending - {h})
  }

  lemma PlaceAllStep(plan: Plan, scene: Scene, seated: set<Id>, pending: set<Id>, h: Id)
    requires IsNext(scene.guests, seated, pending, h)
    ensures PlaceAll(plan, scene, seated, pending) ==
            PlaceAll(PlaceGroup(plan, scene, h, Members(scene.guests, seated, h)), scene, seated, pending - {h})
  {
    forall k | IsNext(scene.guests, seated, pending, k) ensures k == h {
      NextUnique(scene.guests, seated, pending, k, h);
    }
  }

  method PlaceHouseholds(
      start: Plan, startOrder: seq<Id>, queue: seq<Group>, tables: seq<Table>, cs: seq<Constraint>,
      ghost scene: Scene, ghost seated: set<Id>, ghost pending: set<Id>)
    returns (plan: Plan, order: seq<Id>)
    requires scene.Valid() && scene.rules == Elements(cs)
    requires UniqueTables(tables) && scene.tables == TablesById(tables)
    requires Queued(queue, scene, seated, pending)
    requires start.seats.Keys == seated && InOrder(startOrder, seated)
    ensures plan == PlaceAll(start, scene, seated, pending)
    ensures InOrder(order, plan.seats.Keys)
  {
    plan, order := start, startOrder;
    ghost var left := pending;
    for i := 0 to |queue|
      invariant Queued(queue[i..], scene, seated, left)
      invariant MembersOf(scene, seated, left) !! plan.seats.Keys
      invariant PlaceAll(plan, scene, seated, left) == PlaceAll(start, scene, seated, pending)
      invariant InOrder(order, plan.seats.Keys)
    {
      assert queue[i..][0] == queue[i] && queue[i..][1..] == queue[i + 1..];
      ghost var h := queue[i].household;
      ghost var members := Members(scene.guests, seated, h);
      assert members <= MembersOf(scene, seated, left);
      PlaceAllStep(plan, scene, seated, left, h);
      ghost var before := plan;
      plan, order := PlaceHousehold(plan, order, queue[i], tables, cs, scene, members);
      PlaceGroupTouches(before, scene, h, members);
      left := left - {h};
    }
  }

  lemma PlaceGroupTouches(plan: Plan, scene: Scene, h: Id, members: set<Id>)
    requires members <= scene.guests.Keys
    ensures PlaceGroup(plan, scene, h, members).seats.Keys <= plan.seats.Keys + members
  {
    match Judge(plan, scene, members)
    case AtTable(t) => SeatGroupTouches(plan, scene, members, t);
    case _ =>
  }

  lemma SeatGroupTouches(plan: Plan, scene: Scene, members: set<Id>, t: Id)
    requires members <= scene.guests.Keys
    ensures SeatGroup(plan, scene, members, t).seats.Keys == plan.seats.Keys + members
  {
  }

  ghost function HouseholdsOf(queue: seq<Group>): set<Id> {
    set group | group in queue :: group.household
  }

  ghost predicate DistinctHouseholds(queue: seq<Group>) {
    forall i, j :: 0 <= i < j < |queue| ==> queue[i].household != queue[j].household
  }

  /** Every group of the queue is the household of the scene that it is named after. */
  ghost predicate AllRepresent(queue: seq<Group>, scene: Scene, seated: set<Id>) {
    forall group :: group in queue ==>
      Represents(group.guests, scene, Members(scene.guests, seated, group.household))
  }

  lemma LargerFirstOrders()
    ensures StrictWeak(LargerFirst)
  {
    BeforeIsTotal();
  }

  lemma HeadGoesFirst(queue: seq<Group>, scene: Scene, seated: set<Id>, j: nat)
    requires Sorted(queue, LargerFirst) && AllRepresent(queue, scene, seated)
    requires 0 < j < |queue| && queue[0].household != queue[j].household
    ensures GoesFirst(scene.guests, seated, queue[0].household, queue[j].household)
  {
    assert !LargerFirst(queue[j], queue[0]);
    assert queue[0] in queue && queue[j] in queue;
    ListsSize(queue[0].guests, scene.guests, Members(scene.guests, seated, queue[0].household));
    ListsSize(queue[j].guests, scene.guests, Members(scene.guests, seated, queue[j].household));
    BeforeConnected(queue[0].household.text, queue[j].household.text);
  }

  lemma {:induction false} SortedIsQueued(queue: seq<Group>, scene: Scene, seated: set<Id>)
    requires Sorted(queue, LargerFirst) && DistinctHouseholds(queue) && AllRepresent(queue, scene, seated)
    ensures Queued(queue, scene, seated, HouseholdsOf(queue))
  {
    if queue != [] {
      var h := queue[0].household;
      forall other | other in HouseholdsOf(queue) && other != h
        ensures GoesFirst(scene.guests, seated, h, other)
      {
        var j :| 0 <= j < |queue| && queue[j].household == other;
        HeadGoesFirst(queue, scene, seated, j);
      }
      assert queue[0] in queue;
      assert HouseholdsOf(queue[1..]) == HouseholdsOf(queue) - {h} by {
        assert queue == [queue[0]] + queue[1..];
      }
      SortedIsQueued(queue[1..], scene, seated);
    }
  }

  /** The groups in the order in which they are tried. */
  method OrderGroups(groups: map<Id, seq<Guest>>, order: seq<Id>, ghost scene: Scene, ghost seated: set<Id>)
    returns (queue: seq<Group>)
    requires scene.Valid() && Grouped(groups, scene.guests, seated) && InOrder(order, groups.Keys)
    ensures Queued(queue, scene, seated, Households(scene.guests, seated))
  {
    assert forall i :: 0 <= i < |order| ==> order[i] in groups by {
      assert forall i :: 0 <= i < |order| ==> order[i] in Elements(order);
    }
    var entries := seq(|order|, i requires 0 <= i < |order| => Group(order[i], groups[order[i]]));
    EntriesRepresent(entries, order, groups, scene, seated);
    SortKeepsGroups(entries, scene, seated);
    queue := Sort(entries, LargerFirst);
    SortedIsQueued(queue, scene, seated);
  }

  lemma SortKeepsGroups(entries: seq<Group>, scene: Scene, seated: set<Id>)
    requires DistinctHouseholds(entries) && AllRepresent(entries, scene, seated)
    ensures var queue := Sort(entries, LargerFirst);
      && Sorted(queue, LargerFirst) && DistinctHouseholds(queue) && AllRepresent(queue, scene, seated)
      && HouseholdsOf(queue) == HouseholdsOf(entries)
  {
    var queue := Sort(entries, LargerFirst);
    LargerFirstOrders();
    SortCorrect(entries, LargerFirst);
    SortMembers(entries, LargerFirst);
    assert Distinct(entries);
    PermutationKeepsDistinct(entries, queue);
    assert HouseholdsOf(queue) == HouseholdsOf(entries);
    forall i, j | 0 <= i < j < |queue| ensures queue[i].household != queue[j].household {
      assert queue[i] in queue && queue[j] in queue;
    }
  }

  lemma EntriesRepresent(
      entries: seq<Group>, order: seq<Id>, groups: map<Id, seq<Guest>>, scene: Scene, seated: set<Id>)
    requires Grouped(groups, scene.guests, seated) && InOrder(order, groups.Keys)
    requires |entries| == |order|
    requires forall i :: 0 <= i < |order| ==> order[i] in groups && entries[i] == Group(order[i], groups[order[i]])
    ensures AllRepresent(entries, scene, seated) && DistinctHouseholds(entries)
    ensures HouseholdsOf(entries) == Households(scene.guests, seated)
  {
    forall group | group in entries
      ensures Represents(group.guests, scene, Members(scene.guests, seated, group.household))
    {
      var members := Members(scene.guests, seated, group.household);
      assert group.household in Households(scene.guests, seated);
      assert members != {};
      assert Lists(group.guests, scene.guests, members);
    }
    forall h ensures h in HouseholdsOf(entries) <==> h in Households(scene.guests, seated) {
      if h in groups {
        assert h in Elements(order);
        var i :| 0 <= i < |order| && order[i] == h;
        assert entries[i] in entries;
      }
    }
  }
}

/** What the lists of a suggestion say, read off the lists themselves. */
module SeatingReport {
  import opened Wrappers
  import opened Ordering
  import opened Seating
  import opened SeatingProperties
  import opened SeatingConstraints
  import opened SeatingAlgorithm
  import opened SeatingSuggestion
  import opened SeatingOutcome

  // ---------------------------------------------------------------------------
  // Seats

  /** The suggestion lists exactly the seats of an allocation in which every household got what its turn left it. */
  lemma SuggestedInTurn(input: Input, out: Suggestion) returns (final: Plan, keys: seq<string>)
    requires UniqueIds(input) && Outcome(input, out)
    ensures forall a :: a in out.assignments <==> a.guestId in final.seats && final.seats[a.guestId] == a
    ensures var scene := SceneOf(input);
      var seated := Seated(scene, input.existing, Conflicts(keys));
      forall h :: h in Households(scene.guests, seated) ==>
        TurnsOut(scene, seated, Households(scene.guests, seated), seated, final, h)
  {
    keys, final := OutcomePlan(input, out);
    var scene := SceneOf(input);
    SceneValid(input);
    var seated := Seated(scene, input.existing, Conflicts(keys));
    forall h | h in Households(scene.guests, seated)
      ensures TurnsOut(scene, seated, Households(scene.guests, seated), seated, final, h)
    {
      EveryHouseholdInTurn(scene, input.existing, Conflicts(keys), h);
    }
  }

  ghost function AtTable(out: Suggestion, t: Id): set<Assignment> {
    set a | a in out.assignments && a.tableId == t
  }

  lemma SameCount(xs: set<Assignment>, gs: set<Id>)
    requires forall a, b :: a in xs && b in xs && a.guestId == b.guestId ==> a == b
    requires forall a :: a in xs ==> a.guestId in gs
    requires forall g :: g in gs ==> exists a :: a in xs && a.guestId == g
    ensures |xs| == |gs|
    decreases gs
  {
    if gs == {} {
      assert xs == {};
    } else {
      var g :| g in gs;
      var a :| a in xs && a.guestId == g;
      forall h | h in gs - {g} ensures exists b :: b in xs - {a} && b.guestId == h {
        var b :| b in xs && b.guestId == h;
        assert b in xs - {a};
      }
      SameCount(xs - {a}, gs - {g});
    }
  }

  /** Each row of the utilisation names its table and counts the assignments to it. */
  lemma UtilizationExact(input: Input, out: Suggestion, i: nat)
    requires UniqueIds(input) && Outcome(input, out) && i < |input.tables|
    ensures |out.tableUtilization| == |input.tables|
    ensures var row, table := out.tableUtilization[i], input.tables[i];
      row.tableId == table.id && row.capacity == table.capacity && row.taken == |AtTable(out, table.id)|
  {
    var _, final := OutcomePlan(input, out);
    var t := input.tables[i].id;
    assert |SittingAt(final.seats, t)| == final.Occupied(t);
    forall g | g in SittingAt(final.seats, t) ensures exists a :: a in AtTable(out, t) && a.guestId == g {
      assert final.seats[g] in out.assignments;
    }
    SameCount(AtTable(out, t), SittingAt(final.seats, t));
  }

  // ---------------------------------------------------------------------------
  // Preferences

  /** Both guests have no assignment, or they have assignments to one table. */
  ghost predicate Together(out: Suggestion, a: Id, b: Id) {
    || (forall x :: x in out.assignments ==> x.guestId != a && x.guestId != b)
    || (exists x, y :: x in out.assignments && y in out.assignments && x.guestId == a && y.guestId == b && x.tableId == y.tableId)
  }

  /** An optional wish of two named guests that the assignments do not meet. */
  ghost predicate Unmet(out: Suggestion, c: Constraint) {
    match (c.guestId, c.relatedGuestId)
    case (Some(a), Some(b)) =>
      && !c.required && a.text != "" && b.text != ""
      && (c.kind == PreferTogether || c.kind == PreferApart)
      && (Together(out, a, b) <==> c.kind == PreferApart)
    case _ => false
  }

  lemma SeatsShowTogether(out: Suggestion, final: Plan, a: Id, b: Id)
    requires ListsSeats(out.assignments, final.seats) && forall g :: g in final.seats ==> final.seats[g].guestId == g
    ensures Together(out, a, b) <==> final.TableOf(a) == final.TableOf(b)
  {
    assert a in final.seats ==> final.seats[a] in out.assignments;
    assert b in final.seats ==> final.seats[b] in out.assignments;
  }

  lemma UnmetIsViolated(out: Suggestion, final: Plan, c: Constraint)
    requires ListsSeats(out.assignments, final.seats) && forall g :: g in final.seats ==> final.seats[g].guestId == g
    ensures Unmet(out, c) <==> Violates(final, c)
  {
    if c.guestId.Some? && c.relatedGuestId.Some? {
      SeatsShowTogether(out, final, c.guestId.value, c.relatedGuestId.value);
    }
  }

  /** The reported preferences are exactly the texts of those that the assignments do not meet. */
  lemma PreferencesExact(input: Input, out: Suggestion, s: string)
    requires UniqueIds(input) && Outcome(input, out)
    ensures s in out.violatedOptionalPreferences <==>
            exists c :: c in input.constraints && Unmet(out, c) && s == PreferenceText(c)
  {
    var _, final := OutcomePlan(input, out);
    forall c ensures Unmet(out, c) <==> Violates(final, c) {
      UnmetIsViolated(out, final, c);
    }
    assert s in out.violatedOptionalPreferences <==> s in Elements(out.violatedOptionalPreferences);
  }

  // ---------------------------------------------------------------------------
  // The score

  ghost function UnmetAt(out: Suggestion, cs: seq<Constraint>): set<nat> {
    set i: nat | i < |cs| && Unmet(out, cs[i])
  }

  lemma ViolationsCounted(out: Suggestion, final: Plan, cs: seq<Constraint>)
    requires ListsSeats(out.assignments, final.seats) && forall g :: g in final.seats ==> final.seats[g].guestId == g
    ensures |UnmetAt(out, cs)| == ViolationCount(final, cs)
  {
    ViolationsAreOnes(final, cs);
    forall i: nat | i < |cs| ensures i in UnmetAt(out, cs) <==> i in Ones(cs, ViolationOf(final)) {
      UnmetIsViolated(out, final, cs[i]);
    }
    assert UnmetAt(out, cs) == Ones(cs, ViolationOf(final));
  }

  function ViolationOf(final: Plan): Constraint -> int {
    (c: Constraint) => if Violates(final, c) then 1 else 0
  }

  lemma ViolationsAreOnes(final: Plan, cs: seq<Constraint>)
    ensures ViolationCount(final, cs) == |Ones(cs, ViolationOf(final))|
  {
    SumCounts(cs, ViolationOf(final));
    SameViolations(final, cs);
  }

  lemma {:induction false} SameViolations(final: Plan, cs: seq<Constraint>)
    ensures ViolationCount(final, cs) == Sum(cs, ViolationOf(final))
  {
    if cs != [] {
      SameViolations(final, cs[..|cs| - 1]);
    }
  }

  lemma SortedSetEmpty(xs: seq<string>)
    ensures SortedSet(xs) == [] <==> xs == []
    ensures |SortedSet(xs)| <= |xs|
  {
    var ys := SortedSet(xs);
    assert Elements(ys) == Elements(xs);
    if xs != [] {
      assert xs[0] in Elements(ys);
    }
    if ys != [] {
      assert ys[0] in Elements(xs);
    }
    DistinctSize(ys);
    ElementsAtMost(xs);
  }

  lemma {:induction false} ElementsAtMost(xs: seq<string>)
    ensures |Elements(xs)| <= |xs|
  {
    if xs == [] {
      assert Elements(xs) == {};
    } else {
      var front := xs[..|xs| - 1];
      ElementsAtMost(front);
      assert Elements(xs) == Elements(front) + {xs[|xs| - 1]};
    }
  }

  /** From 100, 30 for each hard conflict, 10 for each unassigned guest, 2 for each unmet preference, but never below zero. */
  lemma ScoreExact(input: Input, out: Suggestion) returns (conflicts: nat)
    requires UniqueIds(input) && Outcome(input, out)
    ensures conflicts >= |out.hardConflicts| && (conflicts == 0 <==> out.hardConflicts == [])
    ensures var rest := 100 - 30 * conflicts - 10 * |out.unassignedGuestIds| - 2 * |UnmetAt(out, input.constraints)|;
      out.score == if rest < 0 then 0 else rest
  {
    var _, final := OutcomePlan(input, out);
    conflicts := |final.hard|;
    ViolationsCounted(out, final, input.constraints);
    SortedSetEmpty(RenderAll(final.hard));
  }
}

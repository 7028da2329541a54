/** Contradictory seating rules, found by comparing textual keys. */
module SeatingConstraints {
  import opened Wrappers
  import opened Ordering
  import opened Seating

  function KindName(kind: ConstraintKind): string {
    match kind
    case KeepTogether => "KEEP_TOGETHER"
    case KeepApart => "KEEP_APART"
    case PreferTogether => "PREFER_TOGETHER"
    case PreferApart => "PREFER_APART"
    case MustBeAtTable => "MUST_BE_AT_TABLE"
    case MustNotBeAtTable => "MUST_NOT_BE_AT_TABLE"
    case AccessibleSeatRequired => "ACCESSIBLE_SEAT_REQUIRED"
  }

  function Opposite(kind: ConstraintKind): Option<ConstraintKind> {
    match kind
    case KeepTogether => Some(KeepApart)
    case KeepApart => Some(KeepTogether)
    case PreferTogether => Some(PreferApart)
    case PreferApart => Some(PreferTogether)
    case MustBeAtTable => Some(MustNotBeAtTable)
    case MustNotBeAtTable => Some(MustBeAtTable)
    case AccessibleSeatRequired => None
  }

  function Join(parts: seq<string>): string {
    if parts == [] then ""
    else if |parts| == 1 then parts[0]
    else parts[0] + ":" + Join(parts[1..])
  }

  function Named(id: Option<Id>): seq<string> {
    if Truthy(id) then [id.value.text] else []
  }

  function OrEmpty(id: Option<Id>): string {
    if id.Some? then id.value.text else ""
  }

  /** The guests a constraint names, in order. */
  function GuestTexts(c: Constraint): (r: seq<string>)
    ensures |r| <= 2
  {
    Sort(Named(c.guestId) + Named(c.relatedGuestId), Before)
  }

  function KeyOf(name: string, guests: seq<string>, household: string, table: string): string {
    Join([name, Join(guests), household, table])
  }

  function ConstraintKey(c: Constraint, kind: ConstraintKind): string {
    KeyOf(KindName(kind), GuestTexts(c), OrEmpty(c.householdId), OrEmpty(c.tableId))
  }

  predicate Opposed(c: Constraint, keys: set<string>) {
    Opposite(c.kind).Some? && ConstraintKey(c, Opposite(c.kind).value) in keys
  }

  ghost function Keys(rules: set<Constraint>): set<string> {
    set c | c in rules :: ConstraintKey(c, c.kind)
  }

  /** The keys of the rules that some rule of the opposite kind contradicts. */
  ghost function Contradictions(rules: set<Constraint>): set<string> {
    set c | c in rules && Opposed(c, Keys(rules)) :: ConstraintKey(c, c.kind)
  }

  /** The keys of opposed rules, in the order of the list. */
  function OpposedKeys(cs: seq<Constraint>, keys: set<string>): (r: seq<string>)
    ensures forall key :: key in r <==> exists c :: c in cs && Opposed(c, keys) && ConstraintKey(c, c.kind) == key
  {
    if cs == [] then []
    else
      var most, last := OpposedKeys(cs[..|cs| - 1], keys), cs[|cs| - 1];
      assert cs == cs[..|cs| - 1] + [last];
      if Opposed(last, keys) then most + [ConstraintKey(last, last.kind)] else most
  }

  lemma OpposedKeysExact(cs: seq<Constraint>)
    ensures Elements(OpposedKeys(cs, Keys(Elements(cs)))) == Contradictions(Elements(cs))
  {
  }

  method ContradictoryConstraints(cs: seq<Constraint>) returns (conflicts: seq<string>)
    ensures Enumerates(conflicts, Contradictions(Elements(cs)))
  {
    var keys := set i | 0 <= i < |cs| :: ConstraintKey(cs[i], cs[i].kind);
    assert keys == Keys(Elements(cs));
    var found := [];
    for i := 0 to |cs|
      invariant found == OpposedKeys(cs[..i], keys)
    {
      assert cs[..i + 1][..i] == cs[..i];
      if Opposed(cs[i], keys) {
        found := found + [ConstraintKey(cs[i], cs[i].kind)];
      }
    }
    assert cs[..|cs|] == cs;
    OpposedKeysExact(cs);
    conflicts := SortedSet(found);
  }

  // ---------------------------------------------------------------------------
  // Equal keys mean equal subjects

  ghost predicate ColonFree(s: string) {
    ':' !in s
  }

  /** No id that the constraint mentions contains the separator; UUIDs never do. */
  ghost predicate PlainIds(c: Constraint) {
    && (c.guestId.Some? ==> ColonFree(c.guestId.value.text))
    && (c.relatedGuestId.Some? ==> ColonFree(c.relatedGuestId.value.text))
    && (c.householdId.Some? ==> ColonFree(c.householdId.value.text))
    && (c.tableId.Some? ==> ColonFree(c.tableId.value.text))
  }

  /** The same guests in either role, the same household and the same table. */
  ghost predicate SameSubject(c: Constraint, d: Constraint) {
    && multiset(Named(c.guestId) + Named(c.relatedGuestId)) == multiset(Named(d.guestId) + Named(d.relatedGuestId))
    && OrEmpty(c.householdId) == OrEmpty(d.householdId)
    && OrEmpty(c.tableId) == OrEmpty(d.tableId)
  }

  lemma CutAtColon(x: string, r: string, y: string, s: string)
    requires ColonFree(x) && ColonFree(y)
    requires x + ":" + r == y + ":" + s
    ensures x == y && r == s
  {
    var whole := x + ":" + r;
    assert whole[|x|] == ':' && whole[|y|] == ':';
    assert forall k :: 0 <= k < |x| ==> whole[k] == x[k] && x[k] in x;
    assert forall k :: 0 <= k < |y| ==> whole[k] == y[k] && y[k] in y;
    assert |x| == |y|;
    assert x == whole[..|x|] && y == whole[..|y|];
    assert r == whole[|x| + 1..] && s == whole[|y| + 1..];
  }

  /** Joining parts that contain no separator loses nothing. */
  lemma {:induction false} JoinInjective(ps: seq<string>, qs: seq<string>)
    requires ps != [] && qs != []
    requires forall i :: 0 <= i < |ps| ==> ColonFree(ps[i])
    requires forall i :: 0 <= i < |qs| ==> ColonFree(qs[i])
    requires Join(ps) == Join(qs)
    ensures ps == qs
  {
    if |ps| > 1 && |qs| > 1 {
      CutAtColon(ps[0], Join(ps[1..]), qs[0], Join(qs[1..]));
      JoinInjective(ps[1..], qs[1..]);
      assert ps == [ps[0]] + ps[1..] && qs == [qs[0]] + qs[1..];
    } else if |ps| > 1 {
      JoinHasColon(ps);
    } else if |qs| > 1 {
      JoinHasColon(qs);
    }
  }

  lemma JoinHasColon(ps: seq<string>)
    requires |ps| > 1
    ensures ':' in Join(ps)
  {
    assert Join(ps)[|ps[0]|] == ':';
  }

  lemma JoinCons(p: string, ps: seq<string>)
    requires ps != []
    ensures Join([p] + ps) == p + ":" + Join(ps)
  {
    assert ([p] + ps)[1..] == ps;
  }

  /** Joining a joined list together with more parts is joining all of them. */
  lemma {:induction false} JoinNested(ps: seq<string>, qs: seq<string>)
    requires ps != [] && qs != []
    ensures Join(ps) + ":" + Join(qs) == Join(ps + qs)
  {
    if |ps| == 1 {
      assert ps == [Join(ps)];
      JoinCons(ps[0], qs);
    } else {
      var p, rest := ps[0], ps[1..];
      JoinNested(rest, qs);
      JoinCons(p, rest + qs);
      assert ps + qs == [p] + (rest + qs);
      assert p + ":" + Join(rest) + ":" + Join(qs) == p + ":" + (Join(rest) + ":" + Join(qs));
    }
  }

  /** The fields of a key, with an empty guest field when no guest is named. */
  ghost function Fields(name: string, guests: seq<string>, household: string, table: string): seq<string> {
    [name] + ((if guests == [] then [""] else guests) + [household, table])
  }

  lemma KeyJoinsFields(name: string, guests: seq<string>, household: string, table: string)
    ensures KeyOf(name, guests, household, table) == Join(Fields(name, guests, household, table))
  {
    var present := if guests == [] then [""] else guests;
    var tail := [household, table];
    JoinNested(present, tail);
    JoinCons(Join(guests), tail);
    JoinCons(name, [Join(guests)] + tail);
    JoinCons(name, present + tail);
    assert [name, Join(guests), household, table] == [name] + ([Join(guests)] + tail);
  }

  ghost predicate PlainParts(name: string, guests: seq<string>, household: string, table: string) {
    && ColonFree(name) && ColonFree(household) && ColonFree(table)
    && forall i :: 0 <= i < |guests| ==> ColonFree(guests[i]) && guests[i] != ""
  }

  lemma FieldsTell(
      n: string, gs: seq<string>, h: string, t: string, n': string, gs': seq<string>, h': string, t': string)
    requires PlainParts(n, gs, h, t) && PlainParts(n', gs', h', t')
    requires Fields(n, gs, h, t) == Fields(n', gs', h', t')
    ensures n == n' && gs == gs' && h == h' && t == t'
  {
    var ps, qs := Fields(n, gs, h, t), Fields(n', gs', h', t');
    assert ps[0] == n && ps[|ps| - 2] == h && ps[|ps| - 1] == t;
    assert qs[0] == n' && qs[|qs| - 2] == h' && qs[|qs| - 1] == t';
    assert ps[1..|ps| - 2] == if gs == [] then [""] else gs;
    assert qs[1..|qs| - 2] == if gs' == [] then [""] else gs';
    assert gs == [] || gs[0] != "";
    assert gs' == [] || gs'[0] != "";
  }

  lemma KeyTells(
      n: string, gs: seq<string>, h: string, t: string, n': string, gs': seq<string>, h': string, t': string)
    requires PlainParts(n, gs, h, t) && PlainParts(n', gs', h', t')
    requires KeyOf(n, gs, h, t) == KeyOf(n', gs', h', t')
    ensures n == n' && gs == gs' && h == h' && t == t'
  {
    KeyJoinsFields(n, gs, h, t);
    KeyJoinsFields(n', gs', h', t');
    JoinInjective(Fields(n, gs, h, t), Fields(n', gs', h', t'));
    FieldsTell(n, gs, h, t, n', gs', h', t');
  }

  lemma KindNamesDistinct(k: ConstraintKind, l: ConstraintKind)
    ensures ColonFree(KindName(k))
    ensures KindName(k) == KindName(l) ==> k == l
  {
    assert k.KeepTogether? || k.KeepApart? || k.PreferTogether? || k.PreferApart? ||
           k.MustBeAtTable? || k.MustNotBeAtTable? || k.AccessibleSeatRequired?;
  }

  lemma GuestTextsPlain(c: Constraint)
    requires PlainIds(c)
    ensures multiset(GuestTexts(c)) == multiset(Named(c.guestId) + Named(c.relatedGuestId))
    ensures Sorted(GuestTexts(c), Before)
    ensures forall s :: s in GuestTexts(c) ==> ColonFree(s) && s != ""
  {
    BeforeIsTotal();
    SortCorrect(Named(c.guestId) + Named(c.relatedGuestId), Before);
    SortMembers(Named(c.guestId) + Named(c.relatedGuestId), Before);
  }

  lemma PartsPlain(c: Constraint, kind: ConstraintKind)
    requires PlainIds(c)
    ensures PlainParts(KindName(kind), GuestTexts(c), OrEmpty(c.householdId), OrEmpty(c.tableId))
  {
    GuestTextsPlain(c);
    KindNamesDistinct(kind, kind);
    assert forall i :: 0 <= i < |GuestTexts(c)| ==> GuestTexts(c)[i] in GuestTexts(c);
  }

  /** Two keys are equal exactly when kind and subject are. */
  lemma KeyEqualsSubject(c: Constraint, k: ConstraintKind, d: Constraint, l: ConstraintKind)
    requires PlainIds(c) && PlainIds(d)
    ensures ConstraintKey(c, k) == ConstraintKey(d, l) <==> k == l && SameSubject(c, d)
  {
    if k == l && SameSubject(c, d) {
      SameGuestTexts(c, d);
    }
    if ConstraintKey(c, k) == ConstraintKey(d, l) {
      PartsPlain(c, k);
      PartsPlain(d, l);
      KeyTells(KindName(k), GuestTexts(c), OrEmpty(c.householdId), OrEmpty(c.tableId),
               KindName(l), GuestTexts(d), OrEmpty(d.householdId), OrEmpty(d.tableId));
      KindNamesDistinct(k, l);
      GuestTextsPlain(c);
      GuestTextsPlain(d);
    }
  }

  lemma SameGuestTexts(c: Constraint, d: Constraint)
    requires PlainIds(c) && PlainIds(d) && SameSubject(c, d)
    ensures GuestTexts(c) == GuestTexts(d)
  {
    BeforeIsTotal();
    GuestTextsPlain(c);
    GuestTextsPlain(d);
    SortedUnique(GuestTexts(c), GuestTexts(d), Before);
  }

  /** A rule is reported exactly when a rule of the opposite kind has the same subject. */
  lemma ContradictionsExact(rules: set<Constraint>, c: Constraint)
    requires forall d :: d in rules ==> PlainIds(d)
    requires c in rules
    ensures ConstraintKey(c, c.kind) in Contradictions(rules) <==>
            exists d :: d in rules && Opposite(c.kind) == Some(d.kind) && SameSubject(c, d)
  {
    if ConstraintKey(c, c.kind) in Contradictions(rules) {
      var c' :| c' in rules && Opposed(c', Keys(rules)) && ConstraintKey(c', c'.kind) == ConstraintKey(c, c.kind);
      var d :| d in rules && ConstraintKey(d, d.kind) == ConstraintKey(c', Opposite(c'.kind).value);
      KeyEqualsSubject(c', c'.kind, c, c.kind);
      KeyEqualsSubject(d, d.kind, c', Opposite(c'.kind).value);
      assert SameSubject(c, d);
    }
    if d :| d in rules && Opposite(c.kind) == Some(d.kind) && SameSubject(c, d) {
      KeyEqualsSubject(c, d.kind, d, d.kind);
      assert ConstraintKey(d, d.kind) in Keys(rules);
    }
  }

  /** The three pairs of kinds that exclude each other. */
  predicate Clash(k: ConstraintKind, l: ConstraintKind) {
    {k, l} == {KeepTogether, KeepApart} || {k, l} == {PreferTogether, PreferApart} || {k, l} == {MustBeAtTable, MustNotBeAtTable}
  }

  lemma OppositeIsClash(k: ConstraintKind, l: ConstraintKind)
    ensures Opposite(k) == Some(l) <==> Clash(k, l)
  {
    assert k in {k, l} && l in {k, l};
    if Opposite(k) == Some(l) {
      assert {k, l} == {l, k};
    }
  }

  /** A rule is reported exactly when a rule of a kind that excludes its own has the same subject. */
  lemma ClashesReported(rules: set<Constraint>, c: Constraint)
    requires forall d :: d in rules ==> PlainIds(d)
    requires c in rules
    ensures ConstraintKey(c, c.kind) in Contradictions(rules) <==>
            exists d :: d in rules && Clash(c.kind, d.kind) && SameSubject(c, d)
  {
    ContradictionsExact(rules, c);
    forall d | d in rules ensures Opposite(c.kind) == Some(d.kind) <==> Clash(c.kind, d.kind) {
      OppositeIsClash(c.kind, d.kind);
    }
  }
}

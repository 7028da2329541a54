/** The canonical text of a JSON value, which the plan generator's input hash is taken of. */
module Json {
  import opened Ordering

  datatype Member<T> = Member(key: string, value: T)

  /** A number is represented by its canonical decimal text. */
  datatype Json =
    | Null
    | Bool(value: bool)
    | Num(text: string)
    | Str(chars: string)
    | Arr(items: seq<Json>)
    | Obj(members: seq<Member<Json>>)

  // ---------------------------------------------------------------------------
  // Leaves

  predicate NumChar(c: char) {
    '0' <= c <= '9' || c in {'-', '+', '.', 'e', 'E'}
  }

  /** A JSON number: it starts with a digit or a minus sign and holds no other characters than a number may. */
  predicate NumberText(t: string) {
    t != "" && ('0' <= t[0] <= '9' || t[0] == '-') && forall i :: 0 <= i < |t| ==> NumChar(t[i])
  }

  function HexDigit(n: nat): char
    requires n < 16
  {
    if n < 10 then '0' + n as char else 'a' + (n - 10) as char
  }

  /** What JSON.stringify writes for one character inside quotes. */
  function Escape(c: char): string {
    if c == '"' then "\\\""
    else if c == '\\' then "\\\\"
    else if c == 8 as char then "\\b"
    else if c == 12 as char then "\\f"
    else if c == '\n' then "\\n"
    else if c == '\r' then "\\r"
    else if c == '\t' then "\\t"
    else if c < ' ' then ['\\', 'u', '0', '0', HexDigit(c as int / 16), HexDigit(c as int % 16)]
    else [c]
  }

  function EscapeAll(s: string): string {
    if s == "" then "" else Escape(s[0]) + EscapeAll(s[1..])
  }

  function Quote(s: string): string {
    "\"" + EscapeAll(s) + "\""
  }

  // ---------------------------------------------------------------------------
  // The text of a value

  function Join(parts: seq<string>): string {
    if parts == [] then ""
    else if |parts| == 1 then parts[0]
    else parts[0] + "," + Join(parts[1..])
  }

  function ByKey(before: (string, string) -> bool): (Member<string>, Member<string>) -> bool {
    (a: Member<string>, b: Member<string>) => before(a.key, b.key)
  }

  function MemberText(m: Member<string>): string {
    Quote(m.key) + ":" + m.value
  }

  function MemberTexts(ms: seq<Member<string>>): seq<string> {
    seq(|ms|, i requires 0 <= i < |ms| => MemberText(ms[i]))
  }

  /** before is the order that the program sorts keys by; only keys are compared. */
  function StableStringify(v: Json, before: (string, string) -> bool): string
    decreases v
  {
    match v
    case Null => "null"
    case Bool(b) => if b then "true" else "false"
    case Num(t) => t
    case Str(s) => Quote(s)
    case Arr(items) => "[" + Join(ItemTexts(items, before)) + "]"
    case Obj(members) => "{" + Join(MemberTexts(Sort(Rendered(members, before), ByKey(before)))) + "}"
  }

  function ItemTexts(items: seq<Json>, before: (string, string) -> bool): (texts: seq<string>)
    ensures |texts| == |items|
    ensures forall i :: 0 <= i < |items| ==> texts[i] == StableStringify(items[i], before)
    decreases items
  {
    if items == [] then [] else [StableStringify(items[0], before)] + ItemTexts(items[1..], before)
  }

  function Rendered(members: seq<Member<Json>>, before: (string, string) -> bool): (texts: seq<Member<string>>)
    ensures |texts| == |members|
    ensures forall i :: 0 <= i < |members| ==>
      texts[i] == Member(members[i].key, StableStringify(members[i].value, before))
    decreases members
  {
    if members == [] then []
    else [Member(members[0].key, StableStringify(members[0].value, before))] + Rendered(members[1..], before)
  }

  // ---------------------------------------------------------------------------
  // Equality up to the order of object members

  ghost predicate WellFormed(v: Json)
    decreases v
  {
    match v
    case Num(t) => NumberText(t)
    case Arr(items) => forall i :: 0 <= i < |items| ==> WellFormed(items[i])
    case Obj(members) =>
      && (forall i, j :: 0 <= i < j < |members| ==> members[i].key != members[j].key)
      && (forall i :: 0 <= i < |members| ==> WellFormed(members[i].value))
    case _ => true
  }

  ghost predicate Same(a: Json, b: Json)
    decreases a
  {
    match (a, b)
    case (Arr(xs), Arr(ys)) =>
      |xs| == |ys| && forall i :: 0 <= i < |xs| ==> Same(xs[i], ys[i])
    case (Obj(ms), Obj(ns)) =>
      |ms| == |ns| && forall i :: 0 <= i < |ms| ==>
        exists j :: 0 <= j < |ns| && ns[j].key == ms[i].key && Same(ms[i].value, ns[j].value)
    case (_, _) => a == b
  }

  // ---------------------------------------------------------------------------
  // Values that are the same have the same text

  lemma ByKeyOrders(before: (string, string) -> bool)
    requires StrictTotal(before)
    ensures StrictWeak(ByKey(before))
  {
    var less := ByKey(before);
    forall x ensures !less(x, x) {
      assert !before(x.key, x.key);
    }
    forall x, y, z | less(x, y) && less(y, z) ensures less(x, z) {
      assert before(x.key, y.key) && before(y.key, z.key);
    }
    forall x, y, z | !less(x, y) && !less(y, z) ensures !less(x, z) {
      assert !before(x.key, y.key) && !before(y.key, z.key);
    }
  }

  lemma SubsetOfSameSize<T>(a: set<T>, b: set<T>)
    requires a <= b && |a| == |b|
    ensures a == b
  {
    assert b == a + (b - a);
    assert |b| == |a| + |b - a|;
  }

  ghost predicate DistinctKeys<T>(ms: seq<Member<T>>) {
    forall i, j :: 0 <= i < j < |ms| ==> ms[i].key != ms[j].key
  }

  /** Lists of members with distinct keys and the same elements sort to the same list. */
  lemma SameMembersSortAlike(ms: seq<Member<string>>, ns: seq<Member<string>>, before: (string, string) -> bool)
    requires StrictTotal(before) && DistinctKeys(ms) && DistinctKeys(ns)
    requires |ms| == |ns| && forall m :: m in ms ==> m in ns
    ensures Sort(ms, ByKey(before)) == Sort(ns, ByKey(before))
  {
    ByKeyOrders(before);
    DistinctSize(ms);
    DistinctSize(ns);
    SubsetOfSameSize(Elements(ms), Elements(ns));
    DistinctSame(ms, ns);
    SortCorrect(ms, ByKey(before));
    SortCorrect(ns, ByKey(before));
    SortMembers(ms, ByKey(before));
    SortedUnique(Sort(ms, ByKey(before)), Sort(ns, ByKey(before)), ByKey(before));
  }

  lemma {:induction false} SameHaveSameText(a: Json, b: Json, before: (string, string) -> bool)
    requires StrictTotal(before) && WellFormed(a) && WellFormed(b) && Same(a, b)
    ensures StableStringify(a, before) == StableStringify(b, before)
    decreases a
  {
    if a.Arr? {
      forall i | 0 <= i < |a.items| ensures ItemTexts(a.items, before)[i] == ItemTexts(b.items, before)[i] {
        SameHaveSameText(a.items[i], b.items[i], before);
      }
      assert ItemTexts(a.items, before) == ItemTexts(b.items, before);
    } else if a.Obj? {
      var ms, ns := Rendered(a.members, before), Rendered(b.members, before);
      forall m | m in ms ensures m in ns {
        var i :| 0 <= i < |ms| && ms[i] == m;
        var j :| 0 <= j < |b.members| && b.members[j].key == a.members[i].key &&
          Same(a.members[i].value, b.members[j].value);
        SameHaveSameText(a.members[i].value, b.members[j].value, before);
        assert ns[j] == m;
      }
      SameMembersSortAlike(ms, ns, before);
    }
  }

  // ---------------------------------------------------------------------------
  // The text can be read back in only one way

  /** What may follow a value inside a text. */
  predicate Closes(rest: string) {
    rest == "" || rest[0] in {',', ']', '}'}
  }

  lemma Regroup(x: string, y: string, z: string)
    ensures (x + y) + z == x + (y + z)
  {
  }

  lemma EscapePrefixFree(c: char, d: char, u: string, v: string)
    requires Escape(c) + u == Escape(d) + v
    ensures c == d && u == v
  {
    var x, y := Escape(c) + u, Escape(d) + v;
    assert x[0] == y[0];
    assert c != '"' && c != '\\' && c >= ' ' ==> x[0] == c && x[1..] == u;
    assert d != '"' && d != '\\' && d >= ' ' ==> y[0] == d && y[1..] == v;
    if x[0] == '\\' {
      assert |Escape(c)| == 2 ==> x[1] == Escape(c)[1] && x[2..] == u;
      assert |Escape(d)| == 2 ==> y[1] == Escape(d)[1] && y[2..] == v;
      assert |Escape(c)| == 6 ==> x[1] == 'u' && x[4] == Escape(c)[4] && x[5] == Escape(c)[5] && x[6..] == u;
      assert |Escape(d)| == 6 ==> y[1] == 'u' && y[4] == Escape(d)[4] && y[5] == Escape(d)[5] && y[6..] == v;
    }
  }

  lemma {:induction false} QuotedPrefixFree(s: string, t: string, u: string, v: string)
    requires EscapeAll(s) + ("\"" + u) == EscapeAll(t) + ("\"" + v)
    ensures s == t && u == v
  {
    ClosingQuoteTells(s, u);
    ClosingQuoteTells(t, v);
    if s == "" {
      assert ("" + ("\"" + u))[1..] == u && ("" + ("\"" + v))[1..] == v;
    } else {
      Regroup(Escape(s[0]), EscapeAll(s[1..]), "\"" + u);
      Regroup(Escape(t[0]), EscapeAll(t[1..]), "\"" + v);
      EscapePrefixFree(s[0], t[0], EscapeAll(s[1..]) + ("\"" + u), EscapeAll(t[1..]) + ("\"" + v));
      QuotedPrefixFree(s[1..], t[1..], u, v);
      assert s == [s[0]] + s[1..] && t == [t[0]] + t[1..];
    }
  }

  /** The quote that ends a string is not mistaken for one inside it. */
  lemma ClosingQuoteTells(s: string, u: string)
    ensures var text := EscapeAll(s) + ("\"" + u); text[0] == '"' <==> s == ""
  {
    if s != "" {
      assert EscapeAll(s)[0] == Escape(s[0])[0];
    }
  }

  lemma QuoteReadsBack(s: string, t: string, u: string, v: string)
    requires Quote(s) + u == Quote(t) + v
    ensures s == t && u == v
  {
    var su, tv := EscapeAll(s) + ("\"" + u), EscapeAll(t) + ("\"" + v);
    assert Quote(s) + u == "\"" + su && Quote(t) + v == "\"" + tv;
    assert ("\"" + su)[1..] == su && ("\"" + tv)[1..] == tv;
    QuotedPrefixFree(s, t, u, v);
  }

  lemma NumberReadsBack(s: string, t: string, u: string, v: string)
    requires NumberText(s) && NumberText(t) && Closes(u) && Closes(v)
    requires s + u == t + v
    ensures s == t && u == v
  {
    NumberNotShorter(s, t, u, v);
    NumberNotShorter(t, s, v, u);
    assert s == (s + u)[..|s|] && t == (t + v)[..|t|];
    assert u == (s + u)[|s|..] && v == (t + v)[|t|..];
  }

  lemma NumberNotShorter(s: string, t: string, u: string, v: string)
    requires NumberText(s) && NumberText(t) && Closes(u) && Closes(v)
    requires s + u == t + v
    ensures |s| >= |t|
  {
    assert forall i :: 0 <= i < |t| ==> (s + u)[i] == t[i];
    assert u != "" ==> (s + u)[|s|] == u[0];
    assert |s + u| == |s| + |u|;
  }

  /** The first character of a text tells what kind of value it is. */
  lemma FirstCharacter(v: Json, before: (string, string) -> bool)
    requires WellFormed(v)
    ensures var text := StableStringify(v, before);
      && text != "" && !Closes(text)
      && (text[0] == 'n' <==> v.Null?)
      && (text[0] == 't' <==> v == Bool(true))
      && (text[0] == 'f' <==> v == Bool(false))
      && (text[0] == '"' <==> v.Str?)
      && (text[0] == '[' <==> v.Arr?)
      && (text[0] == '{' <==> v.Obj?)
  {
  }

  /** A list of parts followed by its closing bracket, from the first part on. */
  function AfterFirst(parts: seq<string>, close: string): string
    requires parts != []
  {
    if |parts| == 1 then close else "," + (Join(parts[1..]) + close)
  }

  lemma JoinFromFirst(parts: seq<string>, close: string)
    requires parts != []
    ensures Join(parts) + close == parts[0] + AfterFirst(parts, close)
  {
    if |parts| > 1 {
      Regroup(parts[0] + ",", Join(parts[1..]), close);
      Regroup(parts[0], ",", Join(parts[1..]) + close);
    }
  }

  /** After its first part, a list goes on with a comma or ends with its bracket. */
  lemma AfterFirstTells(parts: seq<string>, close: string)
    requires parts != [] && close != "" && close[0] in {']', '}'}
    ensures Closes(AfterFirst(parts, close))
    ensures AfterFirst(parts, close)[0] == ',' <==> |parts| > 1
    ensures |parts| > 1 ==> AfterFirst(parts, close)[1..] == Join(parts[1..]) + close
    ensures |parts| == 1 ==> AfterFirst(parts, close) == close
  {
  }

  lemma EmptyItemsTell(xs: seq<Json>, before: (string, string) -> bool, r: string)
    requires forall i :: 0 <= i < |xs| ==> WellFormed(xs[i])
    ensures var text := Join(ItemTexts(xs, before)) + ("]" + r); text[0] == ']' <==> xs == []
  {
    if xs != [] {
      FirstCharacter(xs[0], before);
      JoinFromFirst(ItemTexts(xs, before), "]" + r);
    }
  }

  /** A text, with whatever may follow it, is the text of one value only, up to member order. */
  lemma {:induction false} ReadsBack(a: Json, b: Json, before: (string, string) -> bool, r: string, s: string)
    requires StrictTotal(before) && WellFormed(a) && WellFormed(b) && Closes(r) && Closes(s)
    requires StableStringify(a, before) + r == StableStringify(b, before) + s
    ensures Same(a, b) && r == s
    decreases a, 1, 0
  {
    FirstCharacter(a, before);
    FirstCharacter(b, before);
    var x := StableStringify(a, before) + r;
    assert x[0] == StableStringify(a, before)[0] == StableStringify(b, before)[0];
    match a
    case Null => assert r == x[4..] && s == x[4..];
    case Bool(v) => assert r == x[(if v then 4 else 5)..] && s == x[(if v then 4 else 5)..];
    case Num(t) => NumberReadsBack(t, b.text, r, s);
    case Str(t) => QuoteReadsBack(t, b.chars, r, s);
    case Arr(xs) =>
      Bracketed('[', Join(ItemTexts(xs, before)), ']', r);
      Bracketed('[', Join(ItemTexts(b.items, before)), ']', s);
      ItemsReadBack(xs, b.items, before, r, s);
    case Obj(ms) =>
      ObjectReadsBack(a, b, before, r, s);
  }

  lemma Bracketed(open: char, inner: string, close: char, r: string)
    ensures ([open] + inner + [close] + r)[1..] == inner + ([close] + r)
  {
  }

  lemma {:induction false} ItemsReadBack(
      xs: seq<Json>, ys: seq<Json>, before: (string, string) -> bool, r: string, s: string)
    requires StrictTotal(before) && Closes(r) && Closes(s)
    requires forall i :: 0 <= i < |xs| ==> WellFormed(xs[i])
    requires forall i :: 0 <= i < |ys| ==> WellFormed(ys[i])
    requires Join(ItemTexts(xs, before)) + ("]" + r) == Join(ItemTexts(ys, before)) + ("]" + s)
    ensures |xs| == |ys| && forall i :: 0 <= i < |xs| ==> Same(xs[i], ys[i])
    ensures r == s
    decreases xs, 0, 0
  {
    EmptyItemsTell(xs, before, r);
    EmptyItemsTell(ys, before, s);
    var ps, qs := ItemTexts(xs, before), ItemTexts(ys, before);
    if xs == [] {
      assert ("" + ("]" + r))[1..] == r && ("" + ("]" + s))[1..] == s;
    } else {
      JoinFromFirst(ps, "]" + r);
      JoinFromFirst(qs, "]" + s);
      AfterFirstTells(ps, "]" + r);
      AfterFirstTells(qs, "]" + s);
      ReadsBack(xs[0], ys[0], before, AfterFirst(ps, "]" + r), AfterFirst(qs, "]" + s));
      if |xs| == 1 {
        assert ("]" + r)[1..] == r && ("]" + s)[1..] == s;
      } else {
        ItemsReadBack(xs[1..], ys[1..], before, r, s);
        assert forall i :: 0 < i < |xs| ==> xs[i] == xs[1..][i - 1] && ys[i] == ys[1..][i - 1];
      }
    }
  }

  /** m renders a member of the object. */
  ghost predicate Renders(m: Member<string>, v: Json, before: (string, string) -> bool)
    requires v.Obj?
  {
    exists i :: 0 <= i < |v.members| && v.members[i].key == m.key &&
      m.value == StableStringify(v.members[i].value, before)
  }

  /** The two objects have the same value under the key, up to member order. */
  ghost predicate AgreeOn(a: Json, b: Json, key: string)
    requires a.Obj? && b.Obj?
  {
    exists i, j :: 0 <= i < |a.members| && 0 <= j < |b.members| &&
      a.members[i].key == key && b.members[j].key == key && Same(a.members[i].value, b.members[j].value)
  }

  lemma EmptyMembersTell(ms: seq<Member<string>>, r: string)
    ensures var text := Join(MemberTexts(ms)) + ("}" + r); text[0] == '}' <==> ms == []
  {
    if ms != [] {
      JoinFromFirst(MemberTexts(ms), "}" + r);
      assert MemberTexts(ms)[0][0] == '"';
    }
  }

  lemma MemberReadsBack(
      a: Json, b: Json, before: (string, string) -> bool,
      m: Member<string>, n: Member<string>, r: string, s: string)
    requires a.Obj? && b.Obj? && StrictTotal(before) && WellFormed(a) && WellFormed(b) && Closes(r) && Closes(s)
    requires Renders(m, a, before) && Renders(n, b, before)
    requires MemberText(m) + r == MemberText(n) + s
    ensures m.key == n.key && AgreeOn(a, b, m.key) && r == s
    decreases a, 0, 0
  {
    var i :| 0 <= i < |a.members| && a.members[i].key == m.key &&
      m.value == StableStringify(a.members[i].value, before);
    var j :| 0 <= j < |b.members| && b.members[j].key == n.key &&
      n.value == StableStringify(b.members[j].value, before);
    MemberParts(m, r);
    MemberParts(n, s);
    QuoteReadsBack(m.key, n.key, ":" + (m.value + r), ":" + (n.value + s));
    assert (":" + (m.value + r))[1..] == m.value + r && (":" + (n.value + s))[1..] == n.value + s;
    ReadsBack(a.members[i].value, b.members[j].value, before, r, s);
  }

  lemma MemberParts(m: Member<string>, r: string)
    ensures MemberText(m) + r == Quote(m.key) + (":" + (m.value + r))
  {
    Regroup(Quote(m.key) + ":", m.value, r);
    Regroup(Quote(m.key), ":", m.value + r);
  }

  ghost predicate AllRender(ms: seq<Member<string>>, v: Json, before: (string, string) -> bool)
    requires v.Obj?
  {
    forall i :: 0 <= i < |ms| ==> Renders(ms[i], v, before)
  }

  ghost predicate AgreeOnAll(a: Json, b: Json, ms: seq<Member<string>>)
    requires a.Obj? && b.Obj?
  {
    forall i :: 0 <= i < |ms| ==> AgreeOn(a, b, ms[i].key)
  }

  /** What is left of two equal member lists once their first members have been read. */
  lemma RestOfMembers(ms: seq<Member<string>>, ns: seq<Member<string>>, r: string, s: string)
    requires ms != [] && ns != []
    requires AfterFirst(MemberTexts(ms), "}" + r) == AfterFirst(MemberTexts(ns), "}" + s)
    ensures |ms| == 1 <==> |ns| == 1
    ensures |ms| == 1 ==> r == s
    ensures |ms| > 1 ==> Join(MemberTexts(ms[1..])) + ("}" + r) == Join(MemberTexts(ns[1..])) + ("}" + s)
  {
    var ps, qs := MemberTexts(ms), MemberTexts(ns);
    AfterFirstTells(ps, "}" + r);
    AfterFirstTells(qs, "}" + s);
    assert ps[1..] == MemberTexts(ms[1..]) && qs[1..] == MemberTexts(ns[1..]);
    assert ("}" + r)[1..] == r && ("}" + s)[1..] == s;
  }

  lemma FirstMemberReadsBack(
      a: Json, b: Json, before: (string, string) -> bool,
      ms: seq<Member<string>>, ns: seq<Member<string>>, r: string, s: string)
    requires a.Obj? && b.Obj? && StrictTotal(before) && WellFormed(a) && WellFormed(b)
    requires ms != [] && ns != [] && Renders(ms[0], a, before) && Renders(ns[0], b, before)
    requires Join(MemberTexts(ms)) + ("}" + r) == Join(MemberTexts(ns)) + ("}" + s)
    ensures AgreeOn(a, b, ms[0].key)
    ensures AfterFirst(MemberTexts(ms), "}" + r) == AfterFirst(MemberTexts(ns), "}" + s)
    decreases a, 0, 1
  {
    var ps, qs := MemberTexts(ms), MemberTexts(ns);
    JoinFromFirst(ps, "}" + r);
    JoinFromFirst(qs, "}" + s);
    AfterFirstTells(ps, "}" + r);
    AfterFirstTells(qs, "}" + s);
    MemberReadsBack(a, b, before, ms[0], ns[0], AfterFirst(ps, "}" + r), AfterFirst(qs, "}" + s));
  }

  lemma {:induction false} MembersReadBack(
      a: Json, b: Json, before: (string, string) -> bool,
      ms: seq<Member<string>>, ns: seq<Member<string>>, r: string, s: string)
    requires a.Obj? && b.Obj? && StrictTotal(before) && WellFormed(a) && WellFormed(b)
    requires AllRender(ms, a, before) && AllRender(ns, b, before)
    requires Join(MemberTexts(ms)) + ("}" + r) == Join(MemberTexts(ns)) + ("}" + s)
    ensures |ms| == |ns| && AgreeOnAll(a, b, ms) && r == s
    decreases a, 0, |ms| + 2
  {
    EmptyMembersTell(ms, r);
    EmptyMembersTell(ns, s);
    if ms == [] {
      assert ("" + ("}" + r))[1..] == r && ("" + ("}" + s))[1..] == s;
    } else {
      FirstMemberReadsBack(a, b, before, ms, ns, r, s);
      RestOfMembers(ms, ns, r, s);
      if |ms| > 1 {
        MembersReadBack(a, b, before, ms[1..], ns[1..], r, s);
        assert forall i :: 0 < i < |ms| ==> ms[i] == ms[1..][i - 1];
      }
    }
  }

  ghost predicate CoversKeys(ms: seq<Member<string>>, v: Json)
    requires v.Obj?
  {
    forall i :: 0 <= i < |v.members| ==> exists k :: 0 <= k < |ms| && ms[k].key == v.members[i].key
  }

  lemma SortedRenders(v: Json, before: (string, string) -> bool)
    requires v.Obj? && StrictTotal(before)
    ensures var ms := Sort(Rendered(v.members, before), ByKey(before));
      AllRender(ms, v, before) && CoversKeys(ms, v)
  {
    var rendered := Rendered(v.members, before);
    var ms := Sort(rendered, ByKey(before));
    ByKeyOrders(before);
    SortMembers(rendered, ByKey(before));
    forall i | 0 <= i < |ms| ensures Renders(ms[i], v, before) {
      assert ms[i] in rendered;
    }
    forall i | 0 <= i < |v.members| ensures exists k :: 0 <= k < |ms| && ms[k].key == v.members[i].key {
      assert rendered[i] in ms;
    }
  }

  lemma MemberAgrees(a: Json, b: Json, i: nat, key: string)
    requires a.Obj? && b.Obj? && WellFormed(a) && i < |a.members| && key == a.members[i].key && AgreeOn(a, b, key)
    ensures exists j :: (0 <= j < |b.members| && b.members[j].key == a.members[i].key &&
                         Same(a.members[i].value, b.members[j].value))
  {
    var p, q :| 0 <= p < |a.members| && 0 <= q < |b.members| &&
      a.members[p].key == key && b.members[q].key == key && Same(a.members[p].value, b.members[q].value);
    assert p == i;
  }

  lemma AgreementIsSame(a: Json, b: Json, ms: seq<Member<string>>)
    requires a.Obj? && b.Obj? && WellFormed(a) && |a.members| == |b.members|
    requires CoversKeys(ms, a) && AgreeOnAll(a, b, ms)
    ensures Same(a, b)
  {
    forall i | 0 <= i < |a.members|
      ensures exists j :: (0 <= j < |b.members| && b.members[j].key == a.members[i].key &&
                           Same(a.members[i].value, b.members[j].value))
    {
      var k :| 0 <= k < |ms| && ms[k].key == a.members[i].key;
      MemberAgrees(a, b, i, ms[k].key);
    }
  }

  lemma ObjectReadsBack(a: Json, b: Json, before: (string, string) -> bool, r: string, s: string)
    requires a.Obj? && b.Obj? && StrictTotal(before) && WellFormed(a) && WellFormed(b)
    requires StableStringify(a, before) + r == StableStringify(b, before) + s
    ensures Same(a, b) && r == s
    decreases a, 0, |a.members| + 3
  {
    var ms := Sort(Rendered(a.members, before), ByKey(before));
    var ns := Sort(Rendered(b.members, before), ByKey(before));
    SortedRenders(a, before);
    SortedRenders(b, before);
    Bracketed('{', Join(MemberTexts(ms)), '}', r);
    Bracketed('{', Join(MemberTexts(ns)), '}', s);
    MembersReadBack(a, b, before, ms, ns, r, s);
    AgreementIsSame(a, b, ms);
  }

  /**
   For any strict total order on keys, two JSON values have the same canonical text exactly
   when they are equal up to the order of object members at every depth.
   */
  lemma SameTextIffSame(a: Json, b: Json, before: (string, string) -> bool)
    requires StrictTotal(before) && WellFormed(a) && WellFormed(b)
    ensures StableStringify(a, before) == StableStringify(b, before) <==> Same(a, b)
  {
    if StableStringify(a, before) == StableStringify(b, before) {
      ReadsBack(a, b, before, "", "");
    }
    if Same(a, b) {
      SameHaveSameText(a, b, before);
    }
  }

  ghost predicate OrderInsensitive(before: (string, string) -> bool) {
    forall a, b :: WellFormed(a) && WellFormed(b) && Same(a, b) ==>
      StableStringify(a, before) == StableStringify(b, before)
  }

  function Pair(k: string, l: string): Json {
    Obj([Member(k, Null), Member(l, Null)])
  }

  /** Two keys that the comparison does not separate stay in the order of insertion. */
  lemma TiedKeysKeepOrder(k: string, l: string, before: (string, string) -> bool)
    requires k != l && !before(l, k)
    ensures Sort(Rendered(Pair(k, l).members, before), ByKey(before)) == [Member(k, "null"), Member(l, "null")]
  {
    var m, n := Member(k, "null"), Member(l, "null");
    var members := Pair(k, l).members;
    assert members[1..] == [Member(l, Null)] && members[1..][1..] == [];
    assert Rendered(members, before) == [m, n];
    assert [m, n][1..] == [n] && [n][1..] == [];
    assert Sort([n], ByKey(before)) == [n];
  }

  lemma PairsAreSame(k: string, l: string)
    requires k != l
    ensures WellFormed(Pair(k, l)) && WellFormed(Pair(l, k)) && Same(Pair(k, l), Pair(l, k))
  {
    var ms, ns := Pair(k, l).members, Pair(l, k).members;
    assert ns[1].key == ms[0].key && Same(ms[0].value, ns[1].value);
    assert ns[0].key == ms[1].key && Same(ms[1].value, ns[0].value);
  }

  /**
   The canonical text is independent of member order exactly when the comparison of keys is
   total; a locale's comparison that calls two different keys equal lets their order through.
   */
  lemma OrderInsensitiveIffTotal(before: (string, string) -> bool)
    requires StrictWeak(before)
    ensures OrderInsensitive(before) <==> StrictTotal(before)
  {
    if StrictTotal(before) {
      forall a, b | WellFormed(a) && WellFormed(b) && Same(a, b)
        ensures StableStringify(a, before) == StableStringify(b, before)
      {
        SameHaveSameText(a, b, before);
      }
    }
    if OrderInsensitive(before) {
      forall k, l | k != l ensures before(k, l) || before(l, k) {
        PairsAreSame(k, l);
        assert StableStringify(Pair(k, l), before) == StableStringify(Pair(l, k), before);
        if !before(k, l) && !before(l, k) {
          TiedKeysDiffer(k, l, before);
        }
      }
    }
  }

  lemma TiedKeysDiffer(k: string, l: string, before: (string, string) -> bool)
    requires k != l && !before(l, k) && !before(k, l)
    ensures StableStringify(Pair(k, l), before) != StableStringify(Pair(l, k), before)
  {
    var m, n := Member(k, "null"), Member(l, "null");
    TiedKeysKeepOrder(k, l, before);
    TiedKeysKeepOrder(l, k, before);
    StartsWithKey([m, n]);
    StartsWithKey([n, m]);
    QuoteDiffers(k, l, ObjectTail([m, n]), ObjectTail([n, m]));
  }

  /** What follows the first key in the text of an object. */
  function ObjectTail(ms: seq<Member<string>>): string
    requires ms != []
  {
    ":" + (ms[0].value + AfterFirst(MemberTexts(ms), "}"))
  }

  lemma StartsWithKey(ms: seq<Member<string>>)
    requires ms != []
    ensures ("{" + Join(MemberTexts(ms)) + "}")[1..] == Quote(ms[0].key) + ObjectTail(ms)
  {
    JoinFromFirst(MemberTexts(ms), "}");
    MemberParts(ms[0], AfterFirst(MemberTexts(ms), "}"));
    assert ("{" + Join(MemberTexts(ms)) + "}")[1..] == Join(MemberTexts(ms)) + "}";
  }

  lemma QuoteDiffers(k: string, l: string, u: string, v: string)
    requires k != l
    ensures Quote(k) + u != Quote(l) + v
  {
    if Quote(k) + u == Quote(l) + v {
      QuoteReadsBack(k, l, u, v);
    }
  }
}

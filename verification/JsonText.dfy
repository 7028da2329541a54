/** What a canonical text looks like: keys in ascending order, strings that decode to themselves. */
module JsonText {
  import opened Ordering
  import opened Json

  // ---------------------------------------------------------------------------
  // Literals and arrays

  /** Literals and numbers are written as sections 3 and 6 of RFC 8259 have them. */
  lemma LiteralTexts(before: (string, string) -> bool, t: string)
    ensures StableStringify(Null, before) == "null"
    ensures StableStringify(Bool(true), before) == "true" && StableStringify(Bool(false), before) == "false"
    ensures StableStringify(Num(t), before) == t
  {
  }

  /** An array grows by a comma and the text of the new item before its bracket. */
  lemma ArrayTexts(items: seq<Json>, item: Json, before: (string, string) -> bool)
    ensures StableStringify(Arr([]), before) == "[]"
    ensures StableStringify(Arr([item]), before) == "[" + StableStringify(item, before) + "]"
    ensures items != [] ==>
      StableStringify(Arr([item] + items), before) ==
      "[" + StableStringify(item, before) + "," + StableStringify(Arr(items), before)[1..]
  {
    assert ([item] + items)[1..] == items;
    var rest := Join(ItemTexts(items, before));
    assert StableStringify(Arr(items), before)[1..] == rest + "]";
    if items != [] {
      var all := ItemTexts([item] + items, before);
      assert all == [StableStringify(item, before)] + ItemTexts(items, before);
      assert all[1..] == ItemTexts(items, before);
    }
  }

  // ---------------------------------------------------------------------------
  // Keys in order

  ghost predicate Ascending<T>(members: seq<Member<T>>, before: (string, string) -> bool) {
    forall i, j :: 0 <= i < j < |members| ==> before(members[i].key, members[j].key)
  }

  lemma AscendingIsSorted(ms: seq<Member<string>>, before: (string, string) -> bool)
    requires StrictTotal(before) && Ascending(ms, before)
    ensures Sort(ms, ByKey(before)) == ms
  {
    var less := ByKey(before);
    ByKeyOrders(before);
    SortCorrect(ms, less);
    forall i, j | 0 <= i < j < |ms| ensures !less(ms[j], ms[i]) && less(ms[i], ms[j]) {
      assert before(ms[i].key, ms[j].key);
      NotBoth(before, ms[i].key, ms[j].key);
    }
    AscendingSeparates(ms, before);
    SortedUnique(ms, Sort(ms, less), less);
  }

  lemma NotBoth(before: (string, string) -> bool, a: string, b: string)
    requires StrictTotal(before) && before(a, b)
    ensures !before(b, a)
  {
    assert before(b, a) ==> before(a, a);
  }

  lemma AscendingSeparates(ms: seq<Member<string>>, before: (string, string) -> bool)
    requires StrictTotal(before) && Ascending(ms, before)
    ensures Separates(ByKey(before), ms)
  {
  }

  lemma RenderedAscends(members: seq<Member<Json>>, before: (string, string) -> bool)
    requires Ascending(members, before)
    ensures Ascending(Rendered(members, before), before)
  {
  }

  /** An object whose keys ascend is printed member by member as it stands. */
  lemma AscendingObjectText(members: seq<Member<Json>>, before: (string, string) -> bool)
    requires StrictTotal(before) && Ascending(members, before)
    ensures StableStringify(Obj(members), before) == "{" + Join(MemberTexts(Rendered(members, before))) + "}"
  {
    RenderedAscends(members, before);
    AscendingIsSorted(Rendered(members, before), before);
  }

  /** Each member is printed as its quoted key, a colon and the text of its value. */
  lemma MemberTextAt(members: seq<Member<Json>>, before: (string, string) -> bool, i: nat)
    requires i < |members|
    ensures |MemberTexts(Rendered(members, before))| == |members|
    ensures MemberTexts(Rendered(members, before))[i] == Quote(members[i].key) + ":" + StableStringify(members[i].value, before)
  {
  }

  /** An object in any order has the text of the one with the same members in ascending order. */
  lemma ObjectTextAscends(members: seq<Member<Json>>, ascending: seq<Member<Json>>, before: (string, string) -> bool)
    requires StrictTotal(before) && Ascending(ascending, before)
    requires WellFormed(Obj(members)) && WellFormed(Obj(ascending)) && Same(Obj(members), Obj(ascending))
    ensures StableStringify(Obj(members), before) == "{" + Join(MemberTexts(Rendered(ascending, before))) + "}"
  {
    SameTextIffSame(Obj(members), Obj(ascending), before);
    AscendingObjectText(ascending, before);
  }

  // ---------------------------------------------------------------------------
  // Strings, decoded as section 7 of RFC 8259 says

  function HexValue(c: char): int {
    if '0' <= c <= '9' then c as int - '0' as int
    else if 'a' <= c <= 'f' then c as int - 'a' as int + 10
    else if 'A' <= c <= 'F' then c as int - 'A' as int + 10
    else 0
  }

  /** Decodes the escapes of a string; of the numeric ones those below 256, as no others are written. */
  function Decode(s: string): string {
    if s == "" then ""
    else if s[0] != '\\' || |s| == 1 then [s[0]] + Decode(s[1..])
    else if s[1] == 'b' then [8 as char] + Decode(s[2..])
    else if s[1] == 'f' then [12 as char] + Decode(s[2..])
    else if s[1] == 'n' then ['\n'] + Decode(s[2..])
    else if s[1] == 'r' then ['\r'] + Decode(s[2..])
    else if s[1] == 't' then ['\t'] + Decode(s[2..])
    else if s[1] == 'u' && |s| >= 6 then [(16 * HexValue(s[4]) + HexValue(s[5])) as char] + Decode(s[6..])
    else [s[1]] + Decode(s[2..])
  }

  lemma HexDigits(n: nat)
    requires n < 16
    ensures HexValue(HexDigit(n)) == n
  {
  }

  lemma DecodeControl(c: char, rest: string)
    requires c < ' '
    ensures Decode(['\\', 'u', '0', '0', HexDigit(c as int / 16), HexDigit(c as int % 16)] + rest) == [c] + Decode(rest)
  {
    var n := c as int;
    HexDigits(n / 16);
    HexDigits(n % 16);
    var s := ['\\', 'u', '0', '0', HexDigit(n / 16), HexDigit(n % 16)] + rest;
    assert s[4] == HexDigit(n / 16) && s[5] == HexDigit(n % 16) && s[6..] == rest;
  }

  lemma DecodeShort(second: char, rest: string)
    ensures (['\\', second] + rest)[2..] == rest
  {
  }

  lemma DecodeOne(c: char, rest: string)
    ensures Decode(Escape(c) + rest) == [c] + Decode(rest)
  {
    if c == '"' {
      DecodeShort('"', rest);
    } else if c == '\\' {
      DecodeShort('\\', rest);
    } else if c == 8 as char {
      DecodeShort('b', rest);
    } else if c == 12 as char {
      DecodeShort('f', rest);
    } else if c == '\n' {
      DecodeShort('n', rest);
    } else if c == '\r' {
      DecodeShort('r', rest);
    } else if c == '\t' {
      DecodeShort('t', rest);
    } else if c < ' ' {
      DecodeControl(c, rest);
    } else {
      assert ([c] + rest)[1..] == rest;
    }
  }

  /** What is written between the quotes decodes to the string, so every escape is the right one. */
  lemma {:induction false} EscapesDecode(s: string)
    ensures Decode(EscapeAll(s)) == s
  {
    if s != "" {
      EscapesDecode(s[1..]);
      DecodeOne(s[0], EscapeAll(s[1..]));
    }
  }

  /** No control character is written as it is. */
  lemma {:induction false} NoRawControls(s: string)
    ensures forall i :: 0 <= i < |EscapeAll(s)| ==> EscapeAll(s)[i] >= ' '
  {
    if s != "" {
      NoRawControls(s[1..]);
    }
  }
}

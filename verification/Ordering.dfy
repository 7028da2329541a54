/**
 The total order on identifiers, sorting, and what makes a sorted list independent of
 the order in which its elements arrived.
 */
module Ordering {

  /** a stands strictly before b, comparing code unit by code unit. */
  predicate Before(a: string, b: string) {
    b != [] && (a == [] || a[0] < b[0] || (a[0] == b[0] && Before(a[1..], b[1..])))
  }

  /** What a comparator must satisfy for a sort to be meaningful. */
  ghost predicate StrictWeak<T(!new)>(less: (T, T) -> bool) {
    && (forall x :: !less(x, x))
    && (forall x, y, z :: less(x, y) && less(y, z) ==> less(x, z))
    && (forall x, y, z :: !less(x, y) && !less(y, z) ==> !less(x, z))
  }

  ghost predicate StrictTotal<T(!new)>(less: (T, T) -> bool) {
    && StrictWeak(less)
    && (forall x, y :: less(x, y) || less(y, x) || x == y)
  }

  lemma {:induction false} BeforeTransitive(a: string, b: string, c: string)
    requires Before(a, b) && Before(b, c)
    ensures Before(a, c)
  {
    if a != [] && a[0] == b[0] && b[0] == c[0] {
      BeforeTransitive(a[1..], b[1..], c[1..]);
    }
  }

  lemma {:induction false} BeforeIrreflexive(a: string)
    ensures !Before(a, a)
  {
    if a != [] {
      BeforeIrreflexive(a[1..]);
    }
  }

  lemma {:induction false} BeforeConnected(a: string, b: string)
    ensures Before(a, b) || Before(b, a) || a == b
  {
    if a != [] && b != [] && a[0] == b[0] {
      BeforeConnected(a[1..], b[1..]);
      assert a == [a[0]] + a[1..] && b == [b[0]] + b[1..];
    }
  }

  lemma BeforeIsTotal()
    ensures StrictTotal(Before)
  {
    forall x ensures !Before(x, x) { BeforeIrreflexive(x); }
    forall x, y, z | Before(x, y) && Before(y, z) ensures Before(x, z) { BeforeTransitive(x, y, z); }
    forall x, y ensures Before(x, y) || Before(y, x) || x == y { BeforeConnected(x, y); }
  }

  /** A shared prefix does not change how two strings compare. */
  lemma {:induction false} BeforeSamePrefix(prefix: string, a: string, b: string)
    ensures Before(prefix + a, prefix + b) == Before(a, b)
  {
    if prefix == [] {
      assert prefix + a == a && prefix + b == b;
    } else {
      BeforeSamePrefix(prefix[1..], a, b);
      BeforeSameHead(prefix[0], prefix[1..] + a, prefix[1..] + b);
      HeadFirst(prefix, a);
      HeadFirst(prefix, b);
    }
  }

  lemma HeadFirst<T>(xs: seq<T>, ys: seq<T>)
    requires xs != []
    ensures xs + ys == [xs[0]] + (xs[1..] + ys)
  {
  }

  lemma BeforeSameHead(c: char, a: string, b: string)
    ensures Before([c] + a, [c] + b) == Before(a, b)
  {
    assert ([c] + a)[1..] == a && ([c] + b)[1..] == b;
  }

  // ---------------------------------------------------------------------------
  // Sorting

  ghost predicate Sorted<T>(xs: seq<T>, less: (T, T) -> bool) {
    forall i, j :: 0 <= i < j < |xs| ==> !less(xs[j], xs[i])
  }

  /** Puts x before the first element that need not precede it, so equals keep their order. */
  function Insert<T(!new)>(x: T, xs: seq<T>, less: (T, T) -> bool): (r: seq<T>)
    ensures |r| == |xs| + 1
  {
    if xs == [] || !less(xs[0], x) then [x] + xs else [xs[0]] + Insert(x, xs[1..], less)
  }

  function Sort<T(!new)>(xs: seq<T>, less: (T, T) -> bool): (r: seq<T>)
    ensures |r| == |xs|
  {
    if xs == [] then [] else Insert(xs[0], Sort(xs[1..], less), less)
  }

  lemma {:induction false} InsertKeeps<T(!new)>(x: T, xs: seq<T>, less: (T, T) -> bool)
    requires StrictWeak(less) && Sorted(xs, less)
    ensures multiset(Insert(x, xs, less)) == multiset{x} + multiset(xs)
    ensures Sorted(Insert(x, xs, less), less)
  {
    if xs == [] || !less(xs[0], x) {
      SortedCons(x, xs, less);
    } else {
      InsertKeeps(x, xs[1..], less);
      var rest := Insert(x, xs[1..], less);
      assert xs == [xs[0]] + xs[1..];
      assert rest[0] in multiset(rest);
      assert rest[0] == x || rest[0] in xs[1..];
      SortedCons(xs[0], rest, less);
    }
  }

  lemma SortedCons<T(!new)>(x: T, xs: seq<T>, less: (T, T) -> bool)
    requires StrictWeak(less) && Sorted(xs, less)
    requires xs == [] || !less(xs[0], x)
    ensures Sorted([x] + xs, less)
  {
    assert forall j :: 0 <= j < |xs| ==> !less(xs[j], x);
  }

  /** Sorting rearranges, and leaves nothing out of order. */
  lemma {:induction false} SortCorrect<T(!new)>(xs: seq<T>, less: (T, T) -> bool)
    requires StrictWeak(less)
    ensures multiset(Sort(xs, less)) == multiset(xs)
    ensures Sorted(Sort(xs, less), less)
  {
    if xs != [] {
      SortCorrect(xs[1..], less);
      InsertKeeps(xs[0], Sort(xs[1..], less), less);
      assert xs == [xs[0]] + xs[1..];
    }
  }

  lemma SortMembers<T(!new)>(xs: seq<T>, less: (T, T) -> bool)
    requires StrictWeak(less)
    ensures forall x :: x in Sort(xs, less) <==> x in xs
  {
    SortCorrect(xs, less);
    assert forall x :: x in Sort(xs, less) <==> x in multiset(Sort(xs, less));
  }

  /** The comparator separates any two different elements of xs. */
  ghost predicate Separates<T>(less: (T, T) -> bool, xs: seq<T>) {
    forall x, y :: x in xs && y in xs && x != y ==> less(x, y) || less(y, x)
  }

  /** Two sorted arrangements of the same elements are the same list. */
  lemma {:induction false} SortedUnique<T(!new)>(xs: seq<T>, ys: seq<T>, less: (T, T) -> bool)
    requires StrictWeak(less) && Separates(less, xs)
    requires Sorted(xs, less) && Sorted(ys, less)
    requires multiset(xs) == multiset(ys)
    ensures xs == ys
  {
    assert |multiset(ys)| == |multiset(xs)|;
    if xs != [] {
      FirstIsLeast(xs, ys, less);
      FirstIsLeast(ys, xs, less);
      MultisetWithoutFirst(xs);
      MultisetWithoutFirst(ys);
      SortedUnique(xs[1..], ys[1..], less);
      assert xs == [xs[0]] + xs[1..] && ys == [ys[0]] + ys[1..];
    }
  }

  lemma MultisetWithoutFirst<T>(xs: seq<T>)
    requires xs != []
    ensures multiset(xs[1..]) == multiset(xs) - multiset{xs[0]}
  {
    assert xs == [xs[0]] + xs[1..];
  }

  lemma FirstIsLeast<T(!new)>(xs: seq<T>, ys: seq<T>, less: (T, T) -> bool)
    requires StrictWeak(less) && Sorted(xs, less)
    requires xs != [] && ys != [] && multiset(xs) == multiset(ys)
    ensures ys[0] in xs && !less(ys[0], xs[0])
  {
    assert ys[0] in multiset(xs);
  }

  function Filter<T(!new)>(xs: seq<T>, p: T -> bool): (r: seq<T>)
    ensures forall x :: x in r <==> x in xs && p(x)
  {
    if xs == [] then []
    else
      var most := Filter(xs[..|xs| - 1], p);
      var last := xs[|xs| - 1];
      assert xs == xs[..|xs| - 1] + [last];
      if p(last) then most + [last] else most
  }

  // ---------------------------------------------------------------------------
  // Lists without repetitions

  ghost predicate Distinct<T>(xs: seq<T>) {
    forall i, j :: 0 <= i < j < |xs| ==> xs[i] != xs[j]
  }

  ghost function Elements<T>(xs: seq<T>): set<T> {
    set x | x in xs
  }

  /** First occurrences, as iterating over a JavaScript Set built from the list yields them. */
  function Dedupe<T(==, !new)>(xs: seq<T>): (r: seq<T>)
    ensures forall x :: x in r <==> x in xs
    ensures Distinct(r)
  {
    if xs == [] then []
    else
      var most := Dedupe(xs[..|xs| - 1]);
      var last := xs[|xs| - 1];
      assert xs == xs[..|xs| - 1] + [last];
      if last in most then most else most + [last]
  }

  lemma DistinctCount<T>(xs: seq<T>, x: T)
    requires Distinct(xs)
    ensures multiset(xs)[x] == if x in xs then 1 else 0
  {
    if xs != [] {
      DistinctCount(xs[1..], x);
      assert xs == [xs[0]] + xs[1..];
    }
  }

  lemma DistinctSame<T>(xs: seq<T>, ys: seq<T>)
    requires Distinct(xs) && Distinct(ys) && Elements(xs) == Elements(ys)
    ensures multiset(xs) == multiset(ys)
  {
    forall x ensures multiset(xs)[x] == multiset(ys)[x] {
      DistinctCount(xs, x);
      DistinctCount(ys, x);
      assert x in xs <==> x in Elements(xs);
      assert x in ys <==> x in Elements(ys);
    }
  }

  lemma {:induction false} DistinctSize<T>(xs: seq<T>)
    requires Distinct(xs)
    ensures |Elements(xs)| == |xs|
  {
    if xs != [] {
      var front, last := xs[..|xs| - 1], xs[|xs| - 1];
      DistinctSize(front);
      assert Elements(xs) == Elements(front) + {last};
      assert last !in front;
    }
  }

  lemma PermutationKeepsDistinct<T>(xs: seq<T>, ys: seq<T>)
    requires multiset(xs) == multiset(ys) && Distinct(xs)
    ensures Distinct(ys)
  {
    forall i, j | 0 <= i < j < |ys| ensures ys[i] != ys[j] {
      DistinctCount(xs, ys[i]);
      assert ys == ys[..j] + ys[j..];
      assert multiset(ys)[ys[i]] == multiset(ys[..j])[ys[i]] + multiset(ys[j..])[ys[i]];
      assert ys[i] in ys[..j] && ys[j] in ys[j..];
    }
  }

  /** xs lists exactly the strings of s, each once, in order. */
  ghost predicate Enumerates(xs: seq<string>, s: set<string>) {
    Distinct(xs) && Sorted(xs, Before) && Elements(xs) == s
  }

  /** A set of strings has only one ordered enumeration. */
  lemma EnumerationUnique(xs: seq<string>, ys: seq<string>, s: set<string>)
    requires Enumerates(xs, s) && Enumerates(ys, s)
    ensures xs == ys
  {
    BeforeIsTotal();
    DistinctSame(xs, ys);
    SortedUnique(xs, ys, Before);
  }

  /** Deduplicating and sorting gives the enumeration of the strings that occurred. */
  function SortedSet(xs: seq<string>): (r: seq<string>)
    ensures Enumerates(r, Elements(xs))
  {
    var r := Sort(Dedupe(xs), Before);
    assert Enumerates(r, Elements(xs)) by {
      BeforeIsTotal();
      SortCorrect(Dedupe(xs), Before);
      PermutationKeepsDistinct(Dedupe(xs), r);
      forall x ensures x in r <==> x in xs {
        assert x in r <==> x in multiset(r);
        assert x in Dedupe(xs) <==> x in multiset(Dedupe(xs));
      }
    }
    r
  }

  /** A finite nonempty set has an element before all its others. */
  lemma {:induction false} MinimumExists<T>(s: set<T>, less: (T, T) -> bool) returns (m: T)
    requires s != {}
    requires forall x, y :: x in s && y in s && x != y ==> less(x, y) || less(y, x)
    requires forall x, y, z :: x in s && y in s && z in s && less(x, y) && less(y, z) ==> less(x, z)
    ensures m in s && forall x :: x in s && x != m ==> less(m, x)
  {
    m :| m in s;
    if s != {m} {
      var other := MinimumExists(s - {m}, less);
      if less(other, m) {
        m := other;
      }
    }
  }

  // ---------------------------------------------------------------------------
  // Sums that do not depend on the order of their terms

  function Sum<T>(xs: seq<T>, f: T -> int): int {
    if xs == [] then 0 else Sum(xs[..|xs| - 1], f) + f(xs[|xs| - 1])
  }

  lemma {:induction false} SumAppend<T>(xs: seq<T>, ys: seq<T>, f: T -> int)
    ensures Sum(xs + ys, f) == Sum(xs, f) + Sum(ys, f)
  {
    if ys == [] {
      assert xs + ys == xs;
    } else {
      SumAppend(xs, ys[..|ys| - 1], f);
      assert (xs + ys)[..|xs + ys| - 1] == xs + ys[..|ys| - 1];
    }
  }

  lemma {:induction false} SumUpdate<T>(xs: seq<T>, i: nat, x: T, f: T -> int)
    requires i < |xs|
    ensures Sum(xs[i := x], f) == Sum(xs, f) - f(xs[i]) + f(x)
  {
    if i == |xs| - 1 {
      assert xs[i := x][..i] == xs[..i];
    } else {
      SumUpdate(xs[..|xs| - 1], i, x, f);
      assert xs[i := x][..|xs| - 1] == xs[..|xs| - 1][i := x];
    }
  }

  lemma MultisetWithoutLast<T>(xs: seq<T>)
    requires xs != []
    ensures multiset(xs[..|xs| - 1]) == multiset(xs) - multiset{xs[|xs| - 1]}
  {
    assert xs == xs[..|xs| - 1] + [xs[|xs| - 1]];
  }

  lemma MultisetWithout<T>(ys: seq<T>, k: nat)
    requires k < |ys|
    ensures multiset(ys[..k] + ys[k + 1..]) == multiset(ys) - multiset{ys[k]}
  {
    SplitAt(ys, k);
  }

  lemma SplitAt<T>(ys: seq<T>, k: nat)
    requires k < |ys|
    ensures ys == ys[..k] + ([ys[k]] + ys[k + 1..])
  {
  }

  lemma SumOne<T>(x: T, f: T -> int)
    ensures Sum([x], f) == f(x)
  {
    assert Sum([x][..0], f) == 0;
  }

  lemma SumAround<T>(a: seq<T>, x: T, b: seq<T>, f: T -> int)
    ensures Sum(a + ([x] + b), f) == Sum(a + b, f) + f(x)
  {
    SumAppend(a, [x] + b, f);
    SumAppend([x], b, f);
    SumAppend(a, b, f);
    SumOne(x, f);
  }

  lemma SumWithout<T>(ys: seq<T>, k: nat, f: T -> int)
    requires k < |ys|
    ensures Sum(ys, f) == Sum(ys[..k] + ys[k + 1..], f) + f(ys[k])
  {
    SplitAt(ys, k);
    SumAround(ys[..k], ys[k], ys[k + 1..], f);
  }

  /** A sum over a list depends only on how often each term occurs. */
  lemma {:induction false} SumPermutation<T>(xs: seq<T>, ys: seq<T>, f: T -> int)
    requires multiset(xs) == multiset(ys)
    ensures Sum(xs, f) == Sum(ys, f)
  {
    assert |multiset(xs)| == |xs| && |multiset(ys)| == |ys|;
    if xs != [] {
      var x := xs[|xs| - 1];
      assert x in multiset(ys);
      var k :| 0 <= k < |ys| && ys[k] == x;
      MultisetWithoutLast(xs);
      MultisetWithout(ys, k);
      SumPermutation(xs[..|xs| - 1], ys[..k] + ys[k + 1..], f);
      SumWithout(ys, k, f);
    }
  }

  ghost function Ones<T>(xs: seq<T>, f: T -> int): set<nat> {
    set i: nat | i < |xs| && f(xs[i]) == 1
  }

  /** A sum of ones and zeros counts the places of the ones. */
  lemma {:induction false} SumCounts<T>(xs: seq<T>, f: T -> int)
    requires forall x :: x in xs ==> f(x) == 0 || f(x) == 1
    ensures Sum(xs, f) == |Ones(xs, f)|
  {
    if xs == [] {
      assert Ones(xs, f) == {};
    } else {
      var front, n := xs[..|xs| - 1], |xs| - 1;
      SumCounts(front, f);
      OnesOneMore(xs, f);
      assert n !in Ones(front, f) && xs[n] in xs;
    }
  }

  lemma OnesOneMore<T>(xs: seq<T>, f: T -> int)
    requires xs != []
    ensures Ones(xs, f) == Ones(xs[..|xs| - 1], f) + if f(xs[|xs| - 1]) == 1 then {|xs| - 1} else {}
  {
  }
}

/** Overflow-checked money: offer totals and the budget summary. Amounts are whole minor units. */
module Commercial {
  import opened Wrappers
  import opened Ordering

  /** The largest integer that a double counts without gaps. */
  const MAX_SAFE := 9_007_199_254_740_991

  datatype MoneyError = MoneyOverflow

  type Money = Result<int, MoneyError>

  function Checked(value: int): Money {
    if -MAX_SAFE <= value <= MAX_SAFE then Ok(value) else Err(MoneyOverflow)
  }

  function CheckedAdd(left: int, right: int): Money {
    Checked(left + right)
  }

  function CheckedMultiply(left: int, right: int): Money {
    Checked(left * right)
  }

  function CheckedSum(values: seq<int>): Money {
    if values == [] then Ok(0)
    else
      var sum := CheckedSum(values[..|values| - 1]);
      if sum.Err? then sum else CheckedAdd(sum.value, values[|values| - 1])
  }

  // ---------------------------------------------------------------------------
  // Offers

  datatype Line = Line(quantity: int, unitPriceMinor: int, optional: bool, selected: bool)

  datatype Totals = Totals(subtotal: int, discount: int, taxableBase: int, tax: int, total: int)

  function Min(a: int, b: int): int {
    if a <= b then a else b
  }

  /** Math.round of n / 10000. */
  function RoundBasisPoints(n: int): int {
    (n + 5000) / 10_000
  }

  function LineTotal(line: Line): Money {
    if line.optional && !line.selected then Ok(0) else CheckedMultiply(line.quantity, line.unitPriceMinor)
  }

  function Subtotal(lines: seq<Line>): Money {
    if lines == [] then Ok(0)
    else
      var sum := Subtotal(lines[..|lines| - 1]);
      if sum.Err? then sum
      else
        var total := LineTotal(lines[|lines| - 1]);
        if total.Err? then total else CheckedAdd(sum.value, total.value)
  }

  function CalculateOfferTotals(lines: seq<Line>, discountMinor: Option<int>, taxRate: Option<int>): Result<Totals, MoneyError> {
    var subtotal := Subtotal(lines);
    if subtotal.Err? then Err(subtotal.error)
    else
      var discount := Min(if discountMinor.Some? then discountMinor.value else 0, subtotal.value);
      var base := subtotal.value - discount;
      var scaled := CheckedMultiply(base, if taxRate.Some? then taxRate.value else 0);
      if scaled.Err? then Err(scaled.error)
      else
        var tax := RoundBasisPoints(scaled.value);
        var total := CheckedAdd(base, tax);
        if total.Err? then Err(total.error)
        else Ok(Totals(subtotal.value, discount, base, tax, total.value))
  }

  // ---------------------------------------------------------------------------
  // When an offer overflows and what its totals are

  ghost predicate PricedLine(line: Line) {
    line.quantity >= 0 && line.unitPriceMinor >= 0
  }

  ghost predicate Priced(lines: seq<Line>) {
    forall line :: line in lines ==> PricedLine(line)
  }

  function Given(amount: Option<int>): int {
    if amount.Some? then amount.value else 0
  }

  /** The unbounded price of a line. */
  function Price(line: Line): int {
    if line.optional && !line.selected then 0 else line.quantity * line.unitPriceMinor
  }

  function Gross(lines: seq<Line>): int {
    Sum(lines, Price)
  }

  function Net(lines: seq<Line>, discountMinor: Option<int>): int {
    Gross(lines) - Min(Given(discountMinor), Gross(lines))
  }

  lemma PriceNonNegative(line: Line)
    requires PricedLine(line)
    ensures Price(line) >= 0
  {
    ProductNonNegative(line.quantity, line.unitPriceMinor);
  }

  lemma ProductNonNegative(a: int, b: int)
    requires a >= 0 && b >= 0
    ensures a * b >= 0
  {
  }

  lemma {:induction false} SumNonNegative<T>(xs: seq<T>, f: T -> int)
    requires forall x :: x in xs ==> f(x) >= 0
    ensures Sum(xs, f) >= 0
  {
    if xs != [] {
      SumNonNegative(xs[..|xs| - 1], f);
      assert xs[|xs| - 1] in xs;
    }
  }

  /** The checked fold fails exactly when the unbounded sum does not fit, whatever the order. */
  lemma {:induction false} SubtotalExact(lines: seq<Line>)
    requires Priced(lines)
    ensures Gross(lines) >= 0
    ensures Subtotal(lines) == if Gross(lines) <= MAX_SAFE then Ok(Gross(lines)) else Err(MoneyOverflow)
  {
    if lines != [] {
      var front, last := lines[..|lines| - 1], lines[|lines| - 1];
      assert last in lines;
      forall line | line in front ensures PricedLine(line) {
        assert line in lines;
      }
      SubtotalExact(front);
      PriceNonNegative(last);
      assert LineTotal(last) == Checked(Price(last));
    }
  }

  /** The offer succeeds exactly when three exact values fit in a safe integer. */
  ghost predicate OfferFits(lines: seq<Line>, discountMinor: Option<int>, taxRate: Option<int>) {
    var base := Net(lines, discountMinor);
    && Gross(lines) <= MAX_SAFE
    && base * Given(taxRate) <= MAX_SAFE
    && base + RoundBasisPoints(base * Given(taxRate)) <= MAX_SAFE
  }

  ghost predicate ProperOffer(lines: seq<Line>, discountMinor: Option<int>, taxRate: Option<int>) {
    Priced(lines) && Given(discountMinor) >= 0 && Given(taxRate) >= 0
  }

  /** The exact tax is base * rate / 10000; the charged tax is nearest to it, and halves go up. */
  ghost predicate NearestTax(tax: int, base: int, rate: int) {
    -5000 < 10_000 * tax - base * rate <= 5000
  }

  lemma RoundsToNearest(n: int, tax: int)
    ensures tax == RoundBasisPoints(n) <==> -5000 < 10_000 * tax - n <= 5000
  {
  }

  lemma OfferTotalsExact(lines: seq<Line>, discountMinor: Option<int>, taxRate: Option<int>)
    requires ProperOffer(lines, discountMinor, taxRate)
    ensures var r := CalculateOfferTotals(lines, discountMinor, taxRate);
      && (r.Ok? <==> OfferFits(lines, discountMinor, taxRate))
      && (r.Ok? ==>
            && r.value.subtotal == Gross(lines)
            && r.value.subtotal == r.value.discount + r.value.taxableBase
            && 0 <= r.value.discount <= Given(discountMinor) && 0 <= r.value.taxableBase
            && (r.value.discount == Given(discountMinor) || r.value.taxableBase == 0)
            && NearestTax(r.value.tax, r.value.taxableBase, Given(taxRate))
            && r.value.total == r.value.taxableBase + r.value.tax
            && 0 <= r.value.tax && r.value.total <= MAX_SAFE)
  {
    SubtotalExact(lines);
    var base := Net(lines, discountMinor);
    ProductNonNegative(base, Given(taxRate));
    RoundsToNearest(base * Given(taxRate), RoundBasisPoints(base * Given(taxRate)));
  }

  /** Neither success nor any total depends on the order of the lines. */
  lemma OfferOrderDoesNotMatter(lines: seq<Line>, permuted: seq<Line>, discountMinor: Option<int>, taxRate: Option<int>)
    requires Priced(lines) && multiset(lines) == multiset(permuted)
    ensures CalculateOfferTotals(lines, discountMinor, taxRate) == CalculateOfferTotals(permuted, discountMinor, taxRate)
  {
    forall line | line in permuted ensures PricedLine(line) {
      assert line in multiset(permuted);
    }
    SumPermutation(lines, permuted, Price);
    SubtotalExact(lines);
    SubtotalExact(permuted);
  }

  /** With a negative price the order decides whether the offer overflows. */
  lemma NegativePricesBreakOrder()
    ensures exists a, b :: CalculateOfferTotals([a, b, a], None, None).Ok? && CalculateOfferTotals([a, a, b], None, None).Err?
  {
    var a, b := Line(1, MAX_SAFE, false, true), Line(-1, MAX_SAFE, false, true);
    assert [a, b, a][..2] == [a, b] && [a, a, b][..2] == [a, a] && [a, b][..1] == [a] && [a, a][..1] == [a] && [a][..0] == [];
    assert Subtotal([a]) == Ok(MAX_SAFE);
    assert Subtotal([a, b]) == Ok(0);
    assert Subtotal([a, b, a]) == Ok(MAX_SAFE);
    assert Subtotal([a, a]).Err?;
    assert Subtotal([a, a, b]).Err?;
    assert CalculateOfferTotals([a, b, a], None, None).Ok?;
    assert CalculateOfferTotals([a, a, b], None, None).Err?;
  }

  /** The check on the total can only fail at a rate of one basis point; else an earlier one has failed. */
  lemma LastCheckOnlyAtOneBasisPoint(lines: seq<Line>, discountMinor: Option<int>, taxRate: Option<int>)
    requires ProperOffer(lines, discountMinor, taxRate) && Given(taxRate) != 1
    ensures OfferFits(lines, discountMinor, taxRate) <==>
            Gross(lines) <= MAX_SAFE && Net(lines, discountMinor) * Given(taxRate) <= MAX_SAFE
  {
    SubtotalExact(lines);
    var base, rate := Net(lines, discountMinor), Given(taxRate);
    if rate >= 2 && base * rate <= MAX_SAFE {
      HalfFits(base, rate);
    }
  }

  lemma HalfFits(base: int, rate: int)
    requires base >= 0 && rate >= 2 && base * rate <= MAX_SAFE
    ensures base + RoundBasisPoints(base * rate) <= MAX_SAFE
  {
    assert base * rate >= base * 2;
    RoundsToNearest(base * rate, RoundBasisPoints(base * rate));
  }

  /** At one basis point it can fail alone. */
  lemma LastCheckFailsAlone()
    ensures exists lines :: (
      && ProperOffer(lines, None, Some(1))
      && Gross(lines) <= MAX_SAFE && Net(lines, None) * 1 <= MAX_SAFE
      && !OfferFits(lines, None, Some(1)))
  {
    var lines := [Line(1, MAX_SAFE, false, true)];
    assert lines[..0] == [];
    assert Price(lines[0]) == MAX_SAFE;
    assert Sum(lines, Price) == Sum<Line>([], Price) + Price(lines[0]);
    assert Net(lines, None) == MAX_SAFE;
    RoundsToNearest(MAX_SAFE, RoundBasisPoints(MAX_SAFE));
    assert ProperOffer(lines, None, Some(1));
    assert !OfferFits(lines, None, Some(1));
  }

  // ---------------------------------------------------------------------------
  // The budget

  datatype Category = Category(allotted: int, deleted: bool)

  datatype Item = Item(
    cancelled: bool,
    deleted: bool,
    estimated: int,
    quoted: Option<int>,
    committed: Option<int>,
    paid: int)

  datatype Summary = Summary(
    target: int,
    allotted: int,
    estimated: int,
    quoted: int,
    committed: int,
    paid: int,
    outstanding: int,
    remaining: int,
    forecast: int,
    overBudget: bool,
    overAllocated: bool)

  function Map<T(!new)>(xs: seq<T>, f: T -> int): (r: seq<int>)
    ensures |r| == |xs| && forall i :: 0 <= i < |xs| ==> r[i] == f(xs[i])
  {
    seq(|xs|, i requires 0 <= i < |xs| => f(xs[i]))
  }

  function Allotted(c: Category): int { c.allotted }
  function Estimated(item: Item): int { item.estimated }
  function Quoted(item: Item): int { Given(item.quoted) }
  function Committed(item: Item): int { Given(item.committed) }
  function Paid(item: Item): int { item.paid }
  predicate Kept(c: Category) { !c.deleted }
  predicate Live(item: Item) { !item.deleted && !item.cancelled }
  predicate Uncommitted(item: Item) { !(item.committed.Some? && item.committed.value > 0) }

  function CalculateBudgetSummary(target: int, allCategories: seq<Category>, allItems: seq<Item>): Result<Summary, MoneyError> {
    var categories := Filter(allCategories, Kept);
    var items := Filter(allItems, Live);
    var allotted := CheckedSum(Map(categories, Allotted));
    var estimated := CheckedSum(Map(items, Estimated));
    var quoted := CheckedSum(Map(items, Quoted));
    var committed := CheckedSum(Map(items, Committed));
    var paid := CheckedSum(Map(items, Paid));
    if allotted.Err? || estimated.Err? || quoted.Err? || committed.Err? || paid.Err? then Err(MoneyOverflow)
    else
      var open := CheckedSum(Map(Filter(items, Uncommitted), Estimated));
      if open.Err? then Err(open.error)
      else
        var forecast := CheckedAdd(committed.value, open.value);
        if forecast.Err? then Err(forecast.error)
        else Ok(Summarize(target, allotted.value, estimated.value, quoted.value, committed.value, paid.value, forecast.value))
  }

  function Summarize(target: int, allotted: int, estimated: int, quoted: int, committed: int, paid: int, forecast: int): Summary {
    Summary(
      target, allotted, estimated, quoted, committed, paid,
      if committed > paid then committed - paid else 0,
      target - committed,
      forecast,
      committed > target,
      allotted > target)
  }

  // ---------------------------------------------------------------------------
  // The summary in one pass

  ghost predicate ProperItem(item: Item) {
    item.estimated >= 0 && Given(item.quoted) >= 0 && Given(item.committed) >= 0 && item.paid >= 0
  }

  ghost predicate ProperBudget(categories: seq<Category>, items: seq<Item>) {
    (forall c :: c in categories ==> c.allotted >= 0) && (forall item :: item in items ==> ProperItem(item))
  }

  /** What an item is expected to cost: what is committed, or else its estimate. */
  function Expected(item: Item): int {
    if Committed(item) > 0 then Committed(item) else item.estimated
  }

  /** The amount of an element when it counts, else nothing. */
  function Where<T(!new)>(p: T -> bool, f: T -> int): T -> int {
    (x: T) => if p(x) then f(x) else 0
  }

  lemma WhereIs<T(!new)>(p: T -> bool, f: T -> int, x: T)
    ensures Where(p, f)(x) == if p(x) then f(x) else 0
  {
  }

  /** The sum of an amount over the live items. */
  function Total(items: seq<Item>, f: Item -> int): int {
    Sum(items, Where(Live, f))
  }

  function AllottedTotal(categories: seq<Category>): int {
    Sum(categories, Where(Kept, Allotted))
  }

  lemma {:induction false} CheckedSumExact<T(!new)>(xs: seq<T>, f: T -> int)
    requires forall x :: x in xs ==> f(x) >= 0
    ensures Sum(xs, f) >= 0
    ensures CheckedSum(Map(xs, f)) == if Sum(xs, f) <= MAX_SAFE then Ok(Sum(xs, f)) else Err(MoneyOverflow)
  {
    if xs != [] {
      var front, last := xs[..|xs| - 1], xs[|xs| - 1];
      assert last in xs;
      CheckedSumExact(front, f);
      assert Map(xs, f)[..|xs| - 1] == Map(front, f);
    }
  }

  lemma {:induction false} FilterSum<T(!new)>(xs: seq<T>, p: T -> bool, f: T -> int)
    ensures Sum(Filter(xs, p), f) == Sum(xs, Where(p, f))
  {
    if xs != [] {
      var front, last := xs[..|xs| - 1], xs[|xs| - 1];
      FilterSum(front, p, f);
      if p(last) {
        assert Filter(xs, p)[..|Filter(xs, p)| - 1] == Filter(front, p);
      }
    }
  }

  lemma {:induction false} SumsAdd<T>(xs: seq<T>, f: T -> int, g: T -> int, h: T -> int)
    requires forall x :: x in xs ==> f(x) + g(x) == h(x)
    ensures Sum(xs, f) + Sum(xs, g) == Sum(xs, h)
  {
    if xs != [] {
      SumsAdd(xs[..|xs| - 1], f, g, h);
      assert xs[|xs| - 1] in xs;
    }
  }

  lemma FilteredExact<T(!new)>(xs: seq<T>, p: T -> bool, f: T -> int)
    requires forall x :: x in xs ==> f(x) >= 0
    ensures var total := Sum(xs, Where(p, f));
      total >= 0 && CheckedSum(Map(Filter(xs, p), f)) == if total <= MAX_SAFE then Ok(total) else Err(MoneyOverflow)
  {
    CheckedSumExact(Filter(xs, p), f);
    FilterSum(xs, p, f);
  }

  lemma ForecastSplits(items: seq<Item>)
    requires forall item :: item in items ==> ProperItem(item)
    ensures Total(items, Committed) + Sum(Filter(items, Live), Where(Uncommitted, Estimated)) == Total(items, Expected)
  {
    var live := Filter(items, Live);
    forall item | item in live ensures Committed(item) + Where(Uncommitted, Estimated)(item) == Expected(item) {
      assert ProperItem(item);
      WhereIs(Uncommitted, Estimated, item);
    }
    SumsAdd(live, Committed, Where(Uncommitted, Estimated), Expected);
    FilterSum(items, Live, Committed);
    FilterSum(items, Live, Expected);
  }

  lemma OpenExact(items: seq<Item>)
    requires forall item :: item in items ==> ProperItem(item)
    ensures 0 <= Total(items, Committed) <= Total(items, Expected)
    ensures Passes(Filter(Filter(items, Live), Uncommitted), Estimated, Total(items, Expected) - Total(items, Committed))
  {
    ForecastSplits(items);
    FilteredExact(Filter(items, Live), Uncommitted, Estimated);
    FilteredExact(items, Live, Committed);
  }

  /** The budget overflows exactly when one of five sums does; each amount is the sum of one pass over all rows. */
  ghost predicate BudgetFits(categories: seq<Category>, items: seq<Item>) {
    && AllottedTotal(categories) <= MAX_SAFE
    && Total(items, Estimated) <= MAX_SAFE
    && Total(items, Quoted) <= MAX_SAFE
    && Total(items, Paid) <= MAX_SAFE
    && Total(items, Expected) <= MAX_SAFE
  }

  lemma BudgetExact(target: int, categories: seq<Category>, items: seq<Item>)
    requires ProperBudget(categories, items)
    ensures CalculateBudgetSummary(target, categories, items) ==
      if BudgetFits(categories, items) then
        Ok(Summarize(
          target,
          AllottedTotal(categories),
          Total(items, Estimated),
          Total(items, Quoted),
          Total(items, Committed),
          Total(items, Paid),
          Total(items, Expected)))
      else Err(MoneyOverflow)
  {
    PassesExact(categories, items);
    OpenExact(items);
  }

  lemma PassesExact(categories: seq<Category>, items: seq<Item>)
    requires ProperBudget(categories, items)
    ensures Passes(Filter(categories, Kept), Allotted, AllottedTotal(categories))
    ensures Passes(Filter(items, Live), Estimated, Total(items, Estimated))
    ensures Passes(Filter(items, Live), Quoted, Total(items, Quoted))
    ensures Passes(Filter(items, Live), Committed, Total(items, Committed))
    ensures Passes(Filter(items, Live), Paid, Total(items, Paid))
  {
    FilteredExact(categories, Kept, Allotted);
    FilteredExact(items, Live, Estimated);
    FilteredExact(items, Live, Quoted);
    FilteredExact(items, Live, Committed);
    FilteredExact(items, Live, Paid);
  }

  ghost predicate Passes<T(!new)>(xs: seq<T>, f: T -> int, total: int) {
    CheckedSum(Map(xs, f)) == if total <= MAX_SAFE then Ok(total) else Err(MoneyOverflow)
  }

  /** How the amounts of a summary relate to each other. */
  lemma BudgetBalances(target: int, categories: seq<Category>, items: seq<Item>, s: Summary)
    requires ProperBudget(categories, items) && CalculateBudgetSummary(target, categories, items) == Ok(s)
    ensures s.remaining + s.committed == target
    ensures s.outstanding >= 0 && s.paid + s.outstanding >= s.committed
    ensures s.outstanding == 0 || s.paid + s.outstanding == s.committed
    ensures s.committed <= s.forecast <= s.committed + s.estimated
    ensures s.overBudget <==> s.remaining < 0
    ensures s.overAllocated <==> s.allotted > target
  {
    BudgetExact(target, categories, items);
    OpenExact(items);
    OpenWithinEstimates(items);
  }

  lemma {:induction false} OpenWithinEstimates(items: seq<Item>)
    requires forall item :: item in items ==> ProperItem(item)
    ensures Total(items, Expected) <= Total(items, Committed) + Total(items, Estimated)
  {
    if items != [] {
      OpenWithinEstimates(items[..|items| - 1]);
      var last := items[|items| - 1];
      assert ProperItem(last);
      WhereIs(Live, Expected, last);
      WhereIs(Live, Committed, last);
      WhereIs(Live, Estimated, last);
    }
  }

  /** The summary does not depend on the order of categories or items. */
  lemma BudgetOrderDoesNotMatter(target: int, categories: seq<Category>, items: seq<Item>, categories': seq<Category>, items': seq<Item>)
    requires ProperBudget(categories, items)
    requires multiset(categories) == multiset(categories') && multiset(items) == multiset(items')
    ensures CalculateBudgetSummary(target, categories, items) == CalculateBudgetSummary(target, categories', items')
  {
    PermutedProper(categories, items, categories', items');
    PermutedTotals(categories, items, categories', items');
    BudgetExact(target, categories, items);
    BudgetExact(target, categories', items');
  }

  lemma PermutedProper(categories: seq<Category>, items: seq<Item>, categories': seq<Category>, items': seq<Item>)
    requires ProperBudget(categories, items)
    requires multiset(categories) == multiset(categories') && multiset(items) == multiset(items')
    ensures ProperBudget(categories', items')
  {
    forall c | c in categories' ensures c in categories {
      assert c in multiset(categories');
    }
    forall item | item in items' ensures item in items {
      assert item in multiset(items');
    }
  }

  lemma PermutedTotals(categories: seq<Category>, items: seq<Item>, categories': seq<Category>, items': seq<Item>)
    requires multiset(categories) == multiset(categories') && multiset(items) == multiset(items')
    ensures AllottedTotal(categories) == AllottedTotal(categories')
    ensures Total(items, Estimated) == Total(items', Estimated)
    ensures Total(items, Quoted) == Total(items', Quoted)
    ensures Total(items, Committed) == Total(items', Committed)
    ensures Total(items, Paid) == Total(items', Paid)
    ensures Total(items, Expected) == Total(items', Expected)
  {
    SumPermutation(categories, categories', Where(Kept, Allotted));
    SumPermutation(items, items', Where(Live, Estimated));
    SumPermutation(items, items', Where(Live, Quoted));
    SumPermutation(items, items', Where(Live, Committed));
    SumPermutation(items, items', Where(Live, Paid));
    SumPermutation(items, items', Where(Live, Expected));
  }

  // ---------------------------------------------------------------------------
  // One more line, one more item

  lemma SumSnoc<T>(xs: seq<T>, x: T, f: T -> int)
    ensures Sum(xs + [x], f) == Sum(xs, f) + f(x)
  {
    assert (xs + [x])[..|xs|] == xs;
  }

  /** A line that is optional and not selected adds nothing to the subtotal; any other adds quantity times unit price. */
  lemma LineAdds(lines: seq<Line>, line: Line, s: int, t: int)
    requires Priced(lines + [line]) && Subtotal(lines) == Ok(s) && Subtotal(lines + [line]) == Ok(t)
    ensures t - s == if line.optional && !line.selected then 0 else line.quantity * line.unitPriceMinor
  {
    forall l | l in lines ensures PricedLine(l) {
      assert l in lines + [line];
    }
    SubtotalExact(lines);
    SubtotalExact(lines + [line]);
    SumSnoc(lines, line, Price);
  }

  /** A discount is what was asked for, or the whole subtotal if that is less. */
  lemma DiscountCapped(lines: seq<Line>, discountMinor: Option<int>, taxRate: Option<int>, totals: Totals)
    requires ProperOffer(lines, discountMinor, taxRate) && CalculateOfferTotals(lines, discountMinor, taxRate) == Ok(totals)
    ensures totals.discount == match discountMinor
      case None => 0
      case Some(d) => if d <= totals.subtotal then d else totals.subtotal
  {
    OfferTotalsExact(lines, discountMinor, taxRate);
  }

  /**
   A deleted or cancelled item changes no amount; any other adds its estimate, quote, commitment and
   payments each to their own sum, and to the forecast what is committed, or else the estimate.
   */
  lemma ItemAdds(target: int, categories: seq<Category>, items: seq<Item>, item: Item, s: Summary, t: Summary)
    requires ProperBudget(categories, items + [item])
    requires CalculateBudgetSummary(target, categories, items) == Ok(s)
    requires CalculateBudgetSummary(target, categories, items + [item]) == Ok(t)
    ensures t.target == s.target && t.allotted == s.allotted
    ensures if item.deleted || item.cancelled then t == s
            else
              && t.estimated - s.estimated == item.estimated
              && t.quoted - s.quoted == (match item.quoted case Some(q) => q case None => 0)
              && t.committed - s.committed == (match item.committed case Some(c) => c case None => 0)
              && t.paid - s.paid == item.paid
              && t.forecast - s.forecast == (match item.committed case Some(c) => if c > 0 then c else item.estimated case None => item.estimated)
  {
    forall i | i in items ensures ProperItem(i) {
      assert i in items + [item];
    }
    BudgetExact(target, categories, items);
    BudgetExact(target, categories, items + [item]);
    ItemAddsTo(items, item, Estimated);
    ItemAddsTo(items, item, Quoted);
    ItemAddsTo(items, item, Committed);
    ItemAddsTo(items, item, Paid);
    ItemAddsTo(items, item, Expected);
  }

  lemma ItemAddsTo(items: seq<Item>, item: Item, f: Item -> int)
    ensures Total(items + [item], f) == Total(items, f) + if item.deleted || item.cancelled then 0 else f(item)
  {
    SumSnoc(items, item, Where(Live, f));
    WhereIs(Live, f, item);
  }

  /** A deleted category adds nothing, any other its allocation. */
  lemma CategoryAdds(target: int, categories: seq<Category>, category: Category, items: seq<Item>, s: Summary, t: Summary)
    requires ProperBudget(categories + [category], items)
    requires CalculateBudgetSummary(target, categories, items) == Ok(s)
    requires CalculateBudgetSummary(target, categories + [category], items) == Ok(t)
    ensures t.allotted - s.allotted == if category.deleted then 0 else category.allotted
    ensures t.(allotted := s.allotted, overAllocated := s.overAllocated) == s
  {
    forall c | c in categories ensures c.allotted >= 0 {
      assert c in categories + [category];
    }
    BudgetExact(target, categories, items);
    BudgetExact(target, categories + [category], items);
    SumSnoc(categories, category, Where(Kept, Allotted));
    WhereIs(Kept, Allotted, category);
  }

  /** With no categories and no items every amount is zero and the whole target remains. */
  lemma EmptyBudget(target: int)
    requires target >= 0
    ensures CalculateBudgetSummary(target, [], []) == Ok(Summary(target, 0, 0, 0, 0, 0, 0, target, 0, false, false))
  {
    BudgetExact(target, [], []);
  }
}

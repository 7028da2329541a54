/** The text colour of an e-mail button: the candidate with the higher contrast. */
module Contrast {

  function Max(a: real, b: real): real { if a >= b then a else b }
  function Min(a: real, b: real): real { if a <= b then a else b }

  /** The contrast ratio of two relative luminances. */
  function Ratio(a: real, b: real): real
    requires a >= 0.0 && b >= 0.0
  {
    (Max(a, b) + 0.05) / (Min(a, b) + 0.05)
  }

  /** The luminance of the chosen candidate; the first one wins ties. */
  function ReadableText(dark: real, light: real, background: real): real
    requires dark >= 0.0 && light >= 0.0 && background >= 0.0
  {
    if Ratio(dark, background) >= Ratio(light, background) then dark else light
  }

  function ChosenRatio(dark: real, light: real, background: real): real
    requires dark >= 0.0 && light >= 0.0 && background >= 0.0
  {
    Ratio(ReadableText(dark, light, background), background)
  }

  // ---------------------------------------------------------------------------
  // How good the better candidate always is

  lemma Scale(t: real, a: real, b: real)
    requires t > 0.0
    ensures a <= b <==> t * a <= t * b
  {
  }

  lemma DivideUp(n: real, d: real, t: real)
    requires d > 0.0
    ensures n / d >= t <==> n >= d * t
  {
    assert n == d * (n / d);
    Scale(d, t, n / d);
  }

  /** How often one shifted luminance goes into another. */
  ghost predicate Above(a: real, b: real, t: real) {
    a + 0.05 >= t * (b + 0.05)
  }

  lemma NotAboveBrighter(a: real, b: real, t: real)
    requires 0.0 <= a <= b && t > 1.0
    ensures !Above(a, b, t)
  {
    Scale(b + 0.05, 1.0, t);
    assert (b + 0.05) * t == t * (b + 0.05);
  }

  /** A ratio is reached exactly when the first or the second is that much brighter. */
  lemma ReachesExactly(a: real, b: real, t: real)
    requires a >= 0.0 && b >= 0.0 && t > 1.0
    ensures Ratio(a, b) >= t <==> Above(a, b, t) || Above(b, a, t)
  {
    if a >= b {
      DivideUp(a + 0.05, b + 0.05, t);
      NotAboveBrighter(b, a, t);
    } else {
      DivideUp(b + 0.05, a + 0.05, t);
      NotAboveBrighter(a, b, t);
    }
  }

  lemma ChosenReachesExactly(dark: real, light: real, background: real, t: real)
    requires dark >= 0.0 && light >= 0.0 && background >= 0.0
    ensures ChosenRatio(dark, light, background) >= t <==> Ratio(dark, background) >= t || Ratio(light, background) >= t
  {
  }

  /** Every background gets a text of at least the ratio. */
  ghost predicate Guarantees(dark: real, light: real, t: real)
    requires 0.0 <= dark && 0.0 <= light
  {
    forall background :: 0.0 <= background <= 1.0 ==> ChosenRatio(dark, light, background) >= t
  }

  /** A chain of two ratios. */
  lemma FarApart(d: real, b: real, l: real, t: real)
    requires t > 1.0 && l >= t * (t * d)
    ensures b >= t * d || l >= t * b
  {
    Scale(t, b, t * d);
  }

  lemma FarApartGuarantees(dark: real, light: real, background: real, t: real)
    requires 0.0 <= dark && 0.0 <= light && 0.0 <= background && t > 1.0
    requires light + 0.05 >= t * (t * (dark + 0.05))
    ensures ChosenRatio(dark, light, background) >= t
  {
    FarApart(dark + 0.05, background + 0.05, light + 0.05, t);
    assert Above(background, dark, t) || Above(light, background, t);
    ChosenReachesExactly(dark, light, background, t);
    ReachesExactly(dark, background, t);
    ReachesExactly(light, background, t);
  }

  /** A value between two that are too close to be chained. */
  lemma Between(d: real, l: real, t: real) returns (b: real)
    requires 0.0 < d <= l && t > 1.0 && l < t * (t * d)
    ensures d <= b <= l && b < t * d && l < t * b
  {
    if t * d > l {
      b := l;
      Scale(l, 1.0, t);
      assert l * t == t * l && l * 1.0 == l;
    } else {
      var low := l / t;
      assert t * low == l;
      Scale(t, t * d, low);
      Scale(t, d, low);
      b := (low + t * d) / 2.0;
      Scale(t, b, low);
    }
  }

  lemma CloseFails(dark: real, light: real, t: real) returns (background: real)
    requires 0.0 <= dark <= light && t > 1.0
    requires light + 0.05 < t * (t * (dark + 0.05))
    ensures dark <= background <= light
    ensures ChosenRatio(dark, light, background) < t
  {
    var b := Between(dark + 0.05, light + 0.05, t);
    background := b - 0.05;
    assert background + 0.05 == b;
    assert !Above(background, dark, t) && !Above(light, background, t);
    NotAboveBrighter(dark, background, t);
    NotAboveBrighter(background, light, t);
    ReachesExactly(dark, background, t);
    ReachesExactly(light, background, t);
    ChosenReachesExactly(dark, light, background, t);
  }

  lemma RatioIsSquare(dark: real, light: real, t: real)
    requires 0.0 <= dark <= light && t > 1.0
    ensures Ratio(dark, light) >= t * t <==> light + 0.05 >= t * (t * (dark + 0.05))
  {
    DivideUp(light + 0.05, dark + 0.05, t * t);
    Associate(dark + 0.05, t);
  }

  lemma Associate(d: real, t: real)
    ensures d * (t * t) == t * (t * d)
  {
  }

  /** A ratio is guaranteed on every background exactly when the candidates contrast by its square. */
  lemma GuaranteeExact(dark: real, light: real, t: real)
    requires 0.0 <= dark <= light <= 1.0 && t > 1.0
    ensures Guarantees(dark, light, t) <==> Ratio(dark, light) >= t * t
  {
    RatioIsSquare(dark, light, t);
    if Ratio(dark, light) >= t * t {
      forall background | 0.0 <= background <= 1.0 ensures ChosenRatio(dark, light, background) >= t {
        FarApartGuarantees(dark, light, background, t);
      }
    } else {
      var background := CloseFails(dark, light, t);
      assert ChosenRatio(dark, light, background) < t;
    }
  }

  lemma RatioAtLeast(a: real, b: real)
    requires a >= 0.0 && b >= 0.0
    ensures a + 0.05 <= (b + 0.05) * Ratio(a, b) && b + 0.05 <= (a + 0.05) * Ratio(a, b)
  {
    if a >= b {
      Quotient(a + 0.05, b + 0.05);
    } else {
      Quotient(b + 0.05, a + 0.05);
    }
  }

  lemma Quotient(n: real, d: real)
    requires n >= d > 0.0
    ensures n == d * (n / d) && d <= n * (n / d)
  {
    Scale(d, 1.0, n / d);
    Scale(n / d, d, n);
    assert n * (n / d) >= d * (n / d);
  }

  lemma Chained(d: real, b: real, l: real, c: real)
    requires d > 0.0 && c > 0.0 && b <= d * c && l <= b * c
    ensures l <= d * (c * c)
  {
    Scale(c, b, d * c);
    assert b * c == c * b && c * (d * c) == d * (c * c);
  }

  lemma RatioPositive(a: real, b: real)
    requires a >= 0.0 && b >= 0.0
    ensures Ratio(a, b) > 0.0
  {
    var n, d := Max(a, b) + 0.05, Min(a, b) + 0.05;
    assert n == d * (n / d);
    Scale(d, n / d, 0.0);
  }

  lemma ChosenIsGreatest(dark: real, light: real, background: real)
    requires 0.0 <= dark && 0.0 <= light && 0.0 <= background
    ensures var c := ChosenRatio(dark, light, background);
      c > 0.0 && c >= Ratio(dark, background) && c >= Ratio(light, background)
  {
    RatioPositive(ReadableText(dark, light, background), background);
  }

  lemma WithinRatio(a: real, b: real, c: real)
    requires 0.0 <= a && 0.0 <= b && c >= Ratio(a, b)
    ensures a + 0.05 <= (b + 0.05) * c && b + 0.05 <= (a + 0.05) * c
  {
    RatioAtLeast(a, b);
    Scale(a + 0.05, Ratio(a, b), c);
    Scale(b + 0.05, Ratio(a, b), c);
  }

  lemma ChainedQuotient(d: real, b: real, l: real, c: real)
    requires d > 0.0 && c > 0.0 && b <= d * c && l <= b * c
    ensures c * c >= l / d
  {
    Chained(d, b, l, c);
    assert l == d * (l / d);
    Scale(d, l / d, c * c);
  }

  lemma SquareOfGreatest(dark: real, light: real, background: real, c: real)
    requires 0.0 <= dark <= light && 0.0 <= background && c > 0.0
    requires c >= Ratio(dark, background) && c >= Ratio(light, background)
    ensures c * c >= (light + 0.05) / (dark + 0.05)
  {
    WithinRatio(dark, background, c);
    WithinRatio(light, background, c);
    ChainedQuotient(dark + 0.05, background + 0.05, light + 0.05, c);
  }

  /** The square of the chosen contrast is never below the contrast of the candidates. */
  lemma ChosenSquared(dark: real, light: real, background: real)
    requires 0.0 <= dark <= light && 0.0 <= background
    ensures ChosenRatio(dark, light, background) * ChosenRatio(dark, light, background) >= Ratio(dark, light)
  {
    ChosenIsGreatest(dark, light, background);
    SquareOfGreatest(dark, light, background, ChosenRatio(dark, light, background));
  }

  /** The second candidate is taken only if it contrasts strictly better. */
  lemma FirstWinsTies(dark: real, light: real, background: real)
    requires dark >= 0.0 && light >= 0.0 && background >= 0.0 && dark != light
    ensures ReadableText(dark, light, background) == light <==> Ratio(dark, background) < Ratio(light, background)
  {
  }
}

/** Wall-clock times of a zone and the two-pass search for the instant that shows one. */
module Zone {
  import opened Calendar

  // Instants and wall-clock times are counted in seconds; a zone is its offset at each instant.
  type Offsets = int -> int

  /** What the clocks of the zone show at an instant, as if it were UTC. */
  function Local(off: Offsets, t: int): int {
    t + off(t)
  }

  datatype Parts = Parts(date: Civil, hour: int, minute: int, second: int)

  ghost predicate RealParts(p: Parts) {
    RealDate(p.date) && 0 <= p.hour < 24 && 0 <= p.minute < 60 && 0 <= p.second < 60
  }

  function PartsOf(local: int): (p: Parts)
    ensures RealParts(p)
  {
    var s := local % 86400;
    Parts(CivilOf(local / 86400), s / 3600, s / 60 % 60, s % 60)
  }

  /** Date.UTC, which carries months outside 1 to 12 into the year. */
  function DateUtc(p: Parts): int {
    var carried := Civil(p.date.year + (p.date.month - 1) / 12, (p.date.month - 1) % 12 + 1, p.date.day);
    DayNumber(carried) * 86400 + p.hour * 3600 + p.minute * 60 + p.second
  }

  lemma SplitSeconds(s: int)
    requires 0 <= s < 86400
    ensures s / 3600 * 3600 + s / 60 % 60 * 60 + s % 60 == s
    ensures 0 <= s / 3600 < 24
  {
    assert s == s / 60 * 60 + s % 60;
    assert s / 60 == s / 60 / 60 * 60 + s / 60 % 60;
    assert s / 60 / 60 == s / 3600;
  }

  /** Reading the clock and counting the parts back loses nothing. */
  lemma PartsRoundTrip(local: int)
    ensures DateUtc(PartsOf(local)) == local
  {
    SplitSeconds(local % 86400);
    var c := CivilOf(local / 86400);
    assert (c.month - 1) / 12 == 0 && (c.month - 1) % 12 == c.month - 1;
  }

  /** Real parts are recovered from their count. */
  lemma PartsUnique(p: Parts)
    requires RealParts(p)
    ensures PartsOf(DateUtc(p)) == p
  {
    var c := p.date;
    assert (c.month - 1) / 12 == 0 && (c.month - 1) % 12 == c.month - 1;
    var s := p.hour * 3600 + p.minute * 60 + p.second;
    DaySplit(DayNumber(c), s);
    HourSplit(p.hour, p.minute, p.second);
    CivilUnique(c);
  }

  lemma DaySplit(day: int, s: int)
    requires 0 <= s < 86400
    ensures (day * 86400 + s) / 86400 == day && (day * 86400 + s) % 86400 == s
  {
  }

  lemma HourSplit(h: int, m: int, s: int)
    requires 0 <= h < 24 && 0 <= m < 60 && 0 <= s < 60
    ensures var n := h * 3600 + m * 60 + s; n / 3600 == h && n / 60 % 60 == m && n % 60 == s
  {
    var n := h * 3600 + m * 60 + s;
    assert n / 60 == h * 60 + m;
    assert (h * 60 + m) % 60 == m;
  }

  // ---------------------------------------------------------------------------
  // The search

  /** One pass moves the candidate by the error of its reading. */
  function OnePass(off: Offsets, desired: int): int {
    desired - off(desired)
  }

  function TwoPasses(off: Offsets, desired: int): int {
    desired - off(OnePass(off, desired))
  }

  method ZonedDateTimeToInstant(off: Offsets, date: Civil, hour: int, minute: int) returns (candidate: int)
    ensures candidate == TwoPasses(off, DateUtc(Parts(date, hour, minute, 0)))
  {
    var desired := DateUtc(Parts(date, hour, minute, 0));
    candidate := desired;
    var pass := 0;
    while pass < 2
      invariant 0 <= pass <= 2
      invariant pass == 0 ==> candidate == desired
      invariant pass == 1 ==> candidate == OnePass(off, desired)
      invariant pass == 2 ==> candidate == TwoPasses(off, desired)
    {
      var parts := PartsOf(Local(off, candidate));
      PartsRoundTrip(Local(off, candidate));
      var represented := DateUtc(parts);
      candidate := candidate + desired - represented;
      pass := pass + 1;
    }
  }

  /** The date and time fields shown for an instant; seconds are dropped. */
  function InputValues(off: Offsets, t: int): (Civil, int, int) {
    var p := PartsOf(Local(off, t));
    (p.date, p.hour, p.minute)
  }

  // ---------------------------------------------------------------------------
  // Zones with one change of offset near the wall-clock time

  /**
   * Offsets never exceed reach, and within reach of the wall-clock time they
   * are `before` until an instant `change` and `after` from it on.
   */
  ghost predicate OneChange(off: Offsets, desired: int, reach: int, change: int, before: int, after: int) {
    && (forall t: int :: -reach <= off(t) <= reach)
    && (forall t: int :: desired - reach <= t <= desired + reach ==> off(t) == if t < change then before else after)
    && -reach <= before <= reach && -reach <= after <= reach
  }

  /** Some instant shows the wall-clock time. */
  ghost predicate Shown(off: Offsets, desired: int) {
    exists t: int :: Local(off, t) == desired
  }

  /** The clocks jump over the wall-clock time. */
  predicate InGap(desired: int, change: int, before: int, after: int) {
    change + before <= desired < change + after
  }

  /** The clocks show the wall-clock time twice. */
  predicate Repeated(desired: int, change: int, before: int, after: int) {
    change + after <= desired < change + before
  }

  /** A wall-clock time is missing exactly when it lies in the skipped gap. */
  lemma MissingExactlyInGap(off: Offsets, desired: int, reach: int, change: int, before: int, after: int)
    requires OneChange(off, desired, reach, change, before, after)
    ensures Shown(off, desired) <==> !InGap(desired, change, before, after)
  {
    if !InGap(desired, change, before, after) {
      if desired - before < change {
        assert Local(off, desired - before) == desired;
      } else {
        assert Local(off, desired - after) == desired;
      }
    }
    if t :| Local(off, t) == desired {
      assert desired - reach <= t <= desired + reach;
    }
  }

  lemma FoundIfSecondPassAgrees(off: Offsets, desired: int)
    ensures Local(off, TwoPasses(off, desired)) == desired <==> off(TwoPasses(off, desired)) == off(OnePass(off, desired))
  {
  }

  /** Two passes find an instant that shows the wall-clock time exactly when there is one. */
  lemma TwoPassesFindIt(off: Offsets, desired: int, reach: int, change: int, before: int, after: int)
    requires OneChange(off, desired, reach, change, before, after)
    ensures Local(off, TwoPasses(off, desired)) == desired <==> Shown(off, desired)
  {
    MissingExactlyInGap(off, desired, reach, change, before, after);
    FoundIfSecondPassAgrees(off, desired);
    var first := OnePass(off, desired);
    var second := TwoPasses(off, desired);
    assert desired - reach <= first <= desired + reach;
    assert desired - reach <= second <= desired + reach;
  }

  /** In the gap the result is off by exactly the jump: early when the time, read as UTC, is before the change, else late. */
  lemma GapMissedByTheJump(off: Offsets, desired: int, reach: int, change: int, before: int, after: int)
    requires OneChange(off, desired, reach, change, before, after)
    requires InGap(desired, change, before, after)
    ensures Local(off, TwoPasses(off, desired)) ==
            if desired < change then desired - (after - before) else desired + (after - before)
  {
    var first := OnePass(off, desired);
    assert desired - reach <= first <= desired + reach;
    var second := TwoPasses(off, desired);
    assert desired - reach <= second <= desired + reach;
  }

  /** Of the two instants that show a repeated time, the earlier is taken exactly when the time, read as UTC, is before the change. */
  lemma RepeatedTimeResolved(off: Offsets, desired: int, reach: int, change: int, before: int, after: int)
    requires OneChange(off, desired, reach, change, before, after)
    requires Repeated(desired, change, before, after)
    ensures Local(off, desired - before) == desired && Local(off, desired - after) == desired
    ensures desired - before < change <= desired - after
    ensures TwoPasses(off, desired) == if desired < change then desired - before else desired - after
  {
    assert desired - reach <= desired - before <= desired + reach;
    assert desired - reach <= desired - after <= desired + reach;
    var first := OnePass(off, desired);
    assert desired - reach <= first <= desired + reach;
  }

  /** One pass finds it exactly when the change does not fall between the two instants it looks at. */
  lemma OnePassFindsItExactly(off: Offsets, desired: int, reach: int, change: int, before: int, after: int)
    requires OneChange(off, desired, reach, change, before, after)
    ensures Local(off, OnePass(off, desired)) == desired <==>
            before == after
            || (if desired < change then desired - before < change else change <= desired - after)
  {
    var first := OnePass(off, desired);
    assert desired - reach <= first <= desired + reach;
  }

  /** One pass alone misses a time that is shown. */
  lemma OnePassIsNotEnough()
    ensures exists off: Offsets, desired: int, reach: int, change: int, before: int, after: int ::
              && OneChange(off, desired, reach, change, before, after)
              && Shown(off, desired)
              && Local(off, OnePass(off, desired)) != desired
  {
    var off := (t: int) => if t < 0 then 7200 else 10800;
    assert Local(off, -3600) == 3600;
    assert OneChange(off, 3600, 10800, 0, 7200, 10800);
  }

  /** With two changes in the window, two passes can miss a time that is shown. */
  lemma TwoChangesDefeatIt()
    ensures exists off: Offsets, desired: int ::
              && Shown(off, desired)
              && Local(off, TwoPasses(off, desired)) != desired
  {
    var off := (t: int) => if t < 1800 then 0 else if t < 5400 then 3600 else 7200;
    assert off(7200) == 7200 && off(0) == 0;
    assert Local(off, 3600) == 7200;
    assert Local(off, TwoPasses(off, 7200)) == 14400;
  }

  // ---------------------------------------------------------------------------
  // Round trips with the input fields

  lemma SameFieldsSameMinute(local: int, p: Parts)
    requires RealParts(p) && p.second == 0
    requires var q := PartsOf(local); q.date == p.date && q.hour == p.hour && q.minute == p.minute
    ensures DateUtc(p) <= local < DateUtc(p) + 60
  {
    var q := PartsOf(local);
    PartsRoundTrip(local);
    SecondsAdd(p, q.second);
    assert q == p.(second := q.second);
  }

  lemma SameMinuteSameFields(local: int, p: Parts)
    requires RealParts(p) && p.second == 0
    requires DateUtc(p) <= local < DateUtc(p) + 60
    ensures PartsOf(local) == p.(second := local - DateUtc(p))
  {
    var r := p.(second := local - DateUtc(p));
    SecondsAdd(p, local - DateUtc(p));
    PartsUnique(r);
  }

  /** The fields shown for a wall-clock time are those of the minute it lies in. */
  lemma FieldsDetermineMinute(local: int, p: Parts)
    requires RealParts(p) && p.second == 0
    ensures var q := PartsOf(local);
      (q.date == p.date && q.hour == p.hour && q.minute == p.minute) <==> DateUtc(p) <= local < DateUtc(p) + 60
  {
    var q := PartsOf(local);
    if q.date == p.date && q.hour == p.hour && q.minute == p.minute {
      SameFieldsSameMinute(local, p);
    }
    if DateUtc(p) <= local < DateUtc(p) + 60 {
      SameMinuteSameFields(local, p);
    }
  }

  lemma SecondsAdd(p: Parts, second: int)
    requires p.second == 0
    ensures DateUtc(p.(second := second)) == DateUtc(p) + second
  {
  }

  /**
   The fields come back exactly when the clocks do show them, or when they jump over them by less
   than a minute and the result is late by the jump.
   */
  lemma FieldsRoundTrip(off: Offsets, date: Civil, hour: int, minute: int, reach: int, change: int, before: int, after: int)
    requires RealParts(Parts(date, hour, minute, 0))
    requires OneChange(off, DateUtc(Parts(date, hour, minute, 0)), reach, change, before, after)
    ensures var desired := DateUtc(Parts(date, hour, minute, 0));
      InputValues(off, TwoPasses(off, desired)) == (date, hour, minute) <==>
      !InGap(desired, change, before, after) || (change <= desired && after - before < 60)
  {
    var desired := DateUtc(Parts(date, hour, minute, 0));
    FieldsDetermineMinute(Local(off, TwoPasses(off, desired)), Parts(date, hour, minute, 0));
    TwoPassesFindIt(off, desired, reach, change, before, after);
    MissingExactlyInGap(off, desired, reach, change, before, after);
    if InGap(desired, change, before, after) {
      GapMissedByTheJump(off, desired, reach, change, before, after);
    }
  }

  /** An instant comes back from its own fields unless its time is shown twice and the other instant is preferred. */
  lemma InstantRoundTrip(off: Offsets, t: int, reach: int, change: int, before: int, after: int)
    requires OneChange(off, Local(off, t), reach, change, before, after)
    ensures var shown := Local(off, t);
      TwoPasses(off, shown) == t <==> !(Repeated(shown, change, before, after) && (t < change) != (shown < change))
  {
    var shown := Local(off, t);
    assert shown - reach <= t <= shown + reach;
    var first := OnePass(off, shown);
    assert shown - reach <= first <= shown + reach;
  }
}

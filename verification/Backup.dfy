/** Scheduled backups: workers claim due schedules, run them and report back. */
module Backup {
  import opened Wrappers
  import opened Calendar
  import opened IsoWeek

  // Times are milliseconds of one clock shared by the database and the workers.
  const DAY := 86_400_000
  const LEASE := 2 * 60 * 60 * 1000
  const TIMEOUT := 90 * 60 * 1000

  datatype Id = Id(text: string)

  datatype Period = OnDate(date: Civil) | InWeek(key: string)

  datatype RunKey = Scheduled(schedule: Id, period: Period) | Free(text: string)

  datatype Status = QUEUED | RUNNING | COMPLETED | FAILED

  /** A run is claimed by a schedule at some time, or requested through the API. */
  datatype Origin = Claimed(owner: Id, at: int) | Requested

  /** `live` says that a worker still executes the run. */
  datatype Run = Run(key: RunKey, origin: Origin, status: Status, live: bool)

  datatype Schedule = Schedule(weekly: bool, enabled: bool, nextRunAt: int, lease: Option<int>)

  datatype World = World(now: int, schedules: map<Id, Schedule>, runs: seq<Run>)

  function Interval(s: Schedule): int {
    if s.weekly then 7 * DAY else DAY
  }

  function PeriodAt(weekly: bool, time: int): Period {
    if weekly then InWeek(PeriodKey(time / DAY)) else OnDate(CivilOf(time / DAY))
  }

  predicate LeaseFree(s: Schedule, now: int) {
    s.lease.None? || s.lease.value < now
  }

  predicate Due(s: Schedule, now: int) {
    s.enabled && s.nextRunAt <= now
  }

  predicate HasKey(runs: seq<Run>, key: RunKey) {
    exists i :: 0 <= i < |runs| && runs[i].key == key
  }

  function ClaimKey(w: World, id: Id): RunKey
    requires id in w.schedules
  {
    Scheduled(id, PeriodAt(w.schedules[id].weekly, w.now))
  }

  /** The schedule moves on in any case; a run is created unless its key exists. */
  function Claim(w: World, id: Id): World {
    if id !in w.schedules || !Due(w.schedules[id], w.now) || !LeaseFree(w.schedules[id], w.now) then w
    else
      var s := w.schedules[id];
      var moved := s.(lease := Some(w.now + LEASE), nextRunAt := w.now + Interval(s));
      var key := ClaimKey(w, id);
      w.(schedules := w.schedules[id := moved],
         runs := if HasKey(w.runs, key) then w.runs else w.runs + [Run(key, Claimed(id, w.now), RUNNING, true)])
  }

  function Unleased(schedules: map<Id, Schedule>, id: Id): map<Id, Schedule> {
    if id in schedules then schedules[id := schedules[id].(lease := None)] else schedules
  }

  function Finish(w: World, i: nat, verified: bool): World {
    if i < |w.runs| && w.runs[i].live && w.runs[i].origin.Claimed? then
      var ended := w.runs[i].(status := if verified then COMPLETED else FAILED, live := false);
      w.(schedules := Unleased(w.schedules, w.runs[i].origin.owner), runs := w.runs[i := ended])
    else w
  }

  /** The worker dies: nothing is written. */
  function Crash(w: World, i: nat): World {
    if i < |w.runs| then w.(runs := w.runs[i := w.runs[i].(live := false)]) else w
  }

  /** Pausing and resuming both drop the lease. */
  function SetEnabled(w: World, id: Id, enabled: bool): World {
    if id in w.schedules
    then w.(schedules := w.schedules[id := w.schedules[id].(enabled := enabled, lease := None)])
    else w
  }

  function Request(w: World, key: RunKey): World {
    if HasKey(w.runs, key) then w else w.(runs := w.runs + [Run(key, Requested, QUEUED, false)])
  }

  datatype Step =
    | Wait(time: nat)
    | ClaimStep(id: Id)
    | FinishStep(run: nat, verified: bool)
    | CrashStep(run: nat)
    | SetEnabledStep(id: Id, enabled: bool)
    | RequestStep(key: RunKey)

  function Apply(w: World, step: Step): World {
    match step
    case Wait(time) => w.(now := w.now + time)
    case ClaimStep(id) => Claim(w, id)
    case FinishStep(run, verified) => Finish(w, run, verified)
    case CrashStep(run) => Crash(w, run)
    case SetEnabledStep(id, enabled) => SetEnabled(w, id, enabled)
    case RequestStep(key) => Request(w, key)
  }

  function After(w: World, steps: seq<Step>): World
    decreases steps
  {
    if steps == [] then w else After(Apply(w, steps[0]), steps[1..])
  }

  // ---------------------------------------------------------------------------
  // The stored rows

  class Store {
    var now: int
    var schedules: map<Id, Schedule>
    var runs: seq<Run>

    function Contents(): World
      reads this
    {
      World(now, schedules, runs)
    }

    constructor (now: int, schedules: map<Id, Schedule>, runs: seq<Run>)
      ensures Contents() == World(now, schedules, runs)
    {
      this.now := now;
      this.schedules := schedules;
      this.runs := runs;
    }

    /** The claiming transaction for the row the query returned; answers with the number of the new run. */
    method ScheduleDueBackup(id: Id) returns (run: Option<nat>)
      modifies this
      ensures Contents() == Claim(old(Contents()), id)
      ensures run == if |runs| > |old(runs)| then Some(|old(runs)|) else None
    {
      if id !in schedules || !schedules[id].enabled || schedules[id].nextRunAt > now {
        return None;
      }
      if schedules[id].lease.Some? && schedules[id].lease.value >= now {
        return None;
      }
      var row := schedules[id];
      var key := Scheduled(id, PeriodAt(row.weekly, now));
      var existing := HasKey(runs, key);
      row := row.(lease := Some(now + LEASE));
      row := row.(nextRunAt := now + Interval(row));
      schedules := schedules[id := row];
      if existing {
        return None;
      }
      runs := runs + [Run(key, Claimed(id, now), RUNNING, true)];
      run := Some(|runs| - 1);
    }

    /** The closing transaction of a run that a worker executed. */
    method Report(run: nat, verified: bool)
      requires run < |runs| && runs[run].live && runs[run].origin.Claimed?
      modifies this
      ensures Contents() == Finish(old(Contents()), run, verified)
    {
      var id := runs[run].origin.owner;
      runs := runs[run := runs[run].(status := if verified then COMPLETED else FAILED, live := false)];
      if id in schedules {
        schedules := schedules[id := schedules[id].(lease := None)];
      }
    }
  }

  // ---------------------------------------------------------------------------
  // What every run of the system keeps

  ghost predicate Fresh(w: World) {
    && w.runs == []
    && (forall id :: id in w.schedules ==> w.schedules[id].lease.None?)
  }

  /** A claimed run was created under the key of its time, and its schedule has moved on by a whole interval. */
  ghost predicate RunInvariant(w: World, r: Run) {
    && (r.live ==> r.status == RUNNING)
    && (r.origin.Claimed? ==>
          && r.origin.owner in w.schedules
          && var s := w.schedules[r.origin.owner];
          && r.origin.at <= w.now
          && r.origin.at + Interval(s) <= s.nextRunAt
          && r.key == Scheduled(r.origin.owner, PeriodAt(s.weekly, r.origin.at)))
    && (r.origin.Requested? ==> !r.live && r.status == QUEUED)
  }

  ghost predicate LeaseInvariant(s: Schedule) {
    s.lease.Some? ==> s.lease.value < s.nextRunAt
  }

  /** Two runs claimed by one schedule lie a whole interval apart, and no two runs share a key. */
  ghost predicate PairInvariant(w: World, r: Run, later: Run) {
    && r.key != later.key
    && (r.origin.Claimed? && later.origin.Claimed? && r.origin.owner == later.origin.owner && r.origin.owner in w.schedules
        ==> r.origin.at + Interval(w.schedules[r.origin.owner]) <= later.origin.at)
  }

  ghost predicate Invariant(w: World) {
    && (forall i :: 0 <= i < |w.runs| ==> RunInvariant(w, w.runs[i]))
    && (forall id :: id in w.schedules ==> LeaseInvariant(w.schedules[id]))
    && (forall i, j :: 0 <= i < j < |w.runs| ==> PairInvariant(w, w.runs[i], w.runs[j]))
  }

  /** What a step may do to the schedules and the clock. */
  ghost predicate MovesOn(v: World, w: World) {
    && v.now <= w.now
    && (forall id :: id in v.schedules ==>
          && id in w.schedules
          && w.schedules[id].weekly == v.schedules[id].weekly
          && v.schedules[id].nextRunAt <= w.schedules[id].nextRunAt)
  }

  lemma RunCarriesOver(v: World, w: World, r: Run)
    requires MovesOn(v, w) && RunInvariant(v, r)
    ensures RunInvariant(w, r)
  {
  }

  lemma PairCarriesOver(v: World, w: World, r: Run, later: Run)
    requires MovesOn(v, w) && PairInvariant(v, r, later) && RunInvariant(v, r)
    ensures PairInvariant(w, r, later)
  {
  }

  lemma RunsCarryOver(v: World, w: World)
    requires MovesOn(v, w) && w.runs == v.runs && Invariant(v)
    requires forall id :: id in w.schedules ==> LeaseInvariant(w.schedules[id])
    ensures Invariant(w)
  {
    forall i | 0 <= i < |w.runs| ensures RunInvariant(w, w.runs[i]) {
      RunCarriesOver(v, w, v.runs[i]);
    }
    forall i, j | 0 <= i < j < |w.runs| ensures PairInvariant(w, w.runs[i], w.runs[j]) {
      PairCarriesOver(v, w, v.runs[i], v.runs[j]);
    }
  }

  /** A step that changes one run only in status and liveness. */
  lemma RunRewritten(w: World, i: nat, r: Run)
    requires Invariant(w) && i < |w.runs|
    requires r.key == w.runs[i].key && r.origin == w.runs[i].origin && RunInvariant(w, r)
    ensures Invariant(w.(runs := w.runs[i := r]))
  {
    var next := w.(runs := w.runs[i := r]);
    forall k | 0 <= k < |next.runs| ensures RunInvariant(next, next.runs[k]) {
      assert k != i ==> RunInvariant(w, w.runs[k]);
    }
    forall j, k | 0 <= j < k < |next.runs| ensures PairInvariant(next, next.runs[j], next.runs[k]) {
      assert PairInvariant(w, w.runs[j], w.runs[k]);
    }
  }

  lemma RunAdded(w: World, r: Run)
    requires Invariant(w) && RunInvariant(w, r)
    requires forall i :: 0 <= i < |w.runs| ==> PairInvariant(w, w.runs[i], r)
    ensures Invariant(w.(runs := w.runs + [r]))
  {
    var next := w.(runs := w.runs + [r]);
    forall k | 0 <= k < |next.runs| ensures RunInvariant(next, next.runs[k]) {
      assert k < |w.runs| ==> RunInvariant(w, w.runs[k]);
    }
    forall j, k | 0 <= j < k < |next.runs| ensures PairInvariant(next, next.runs[j], next.runs[k]) {
      assert k < |w.runs| ==> PairInvariant(w, w.runs[j], w.runs[k]);
    }
  }

  /** The schedules after a claim, before its run is added. */
  function Moved(w: World, id: Id): World
    requires id in w.schedules
  {
    var s := w.schedules[id];
    w.(schedules := w.schedules[id := s.(lease := Some(w.now + LEASE), nextRunAt := w.now + Interval(s))])
  }

  lemma ClaimKeepsInvariant(w: World, id: Id)
    requires Invariant(w)
    ensures Invariant(Claim(w, id))
  {
    if id in w.schedules && Due(w.schedules[id], w.now) && LeaseFree(w.schedules[id], w.now) {
      var moved := Moved(w, id);
      RunsCarryOver(w, moved);
      var key := ClaimKey(w, id);
      if !HasKey(w.runs, key) {
        var r := Run(key, Claimed(id, w.now), RUNNING, true);
        forall i | 0 <= i < |w.runs| ensures PairInvariant(moved, w.runs[i], r) {
          assert RunInvariant(w, w.runs[i]);
        }
        RunAdded(moved, r);
        assert Claim(w, id) == moved.(runs := moved.runs + [r]);
      }
    }
  }

  lemma FinishKeepsInvariant(w: World, i: nat, verified: bool)
    requires Invariant(w)
    ensures Invariant(Finish(w, i, verified))
  {
    if i < |w.runs| && w.runs[i].live && w.runs[i].origin.Claimed? {
      var ended := w.runs[i].(status := if verified then COMPLETED else FAILED, live := false);
      RunRewritten(w, i, ended);
      RunsCarryOver(w.(runs := w.runs[i := ended]), Finish(w, i, verified));
    }
  }

  lemma RequestKeepsInvariant(w: World, key: RunKey)
    requires Invariant(w)
    ensures Invariant(Request(w, key))
  {
    if !HasKey(w.runs, key) {
      RunAdded(w, Run(key, Requested, QUEUED, false));
    }
  }

  lemma StepKeepsInvariant(w: World, step: Step)
    requires Invariant(w)
    ensures Invariant(Apply(w, step))
  {
    match step
    case Wait(time) => RunsCarryOver(w, Apply(w, step));
    case ClaimStep(id) => ClaimKeepsInvariant(w, id);
    case FinishStep(run, verified) => FinishKeepsInvariant(w, run, verified);
    case CrashStep(run) =>
      if run < |w.runs| {
        RunRewritten(w, run, w.runs[run].(live := false));
      }
    case SetEnabledStep(id, enabled) => RunsCarryOver(w, Apply(w, step));
    case RequestStep(key) => RequestKeepsInvariant(w, key);
  }

  lemma {:induction false} RunsKeepInvariant(w: World, steps: seq<Step>)
    requires Invariant(w)
    ensures Invariant(After(w, steps))
    decreases steps
  {
    if steps != [] {
      StepKeepsInvariant(w, steps[0]);
      RunsKeepInvariant(Apply(w, steps[0]), steps[1..]);
    }
  }

  ghost predicate Reachable(w: World) {
    exists start, steps :: Fresh(start) && w == After(start, steps)
  }

  lemma ReachableInvariant(w: World)
    requires Reachable(w)
    ensures Invariant(w)
  {
    var start, steps :| Fresh(start) && w == After(start, steps);
    RunsKeepInvariant(start, steps);
  }

  // ---------------------------------------------------------------------------
  // One run a period

  ghost predicate ClaimedBy(r: Run, id: Id) {
    r.origin.Claimed? && r.origin.owner == id
  }

  lemma PeriodsDiffer(weekly: bool, a: int, b: int)
    requires a + (if weekly then 7 * DAY else DAY) <= b
    ensures PeriodAt(weekly, a) != PeriodAt(weekly, b)
  {
    var m, n := a / DAY, b / DAY;
    if weekly {
      assert m + 7 <= n;
      SamePeriodIffSameWeek(m, n);
    } else {
      assert m < n;
      assert DayNumber(CivilOf(m)) == m && DayNumber(CivilOf(n)) == n;
    }
  }

  /** Any two runs of one schedule start a whole interval apart, in different periods and under different keys. */
  lemma OneRunAPeriod(w: World, id: Id, i: nat, j: nat)
    requires Reachable(w) && id in w.schedules && i < j < |w.runs|
    requires ClaimedBy(w.runs[i], id) && ClaimedBy(w.runs[j], id)
    ensures var s, a, b := w.schedules[id], w.runs[i].origin.at, w.runs[j].origin.at;
      a + Interval(s) <= b && PeriodAt(s.weekly, a) != PeriodAt(s.weekly, b)
  {
    ReachableInvariant(w);
    assert PairInvariant(w, w.runs[i], w.runs[j]);
    PeriodsDiffer(w.schedules[id].weekly, w.runs[i].origin.at, w.runs[j].origin.at);
  }

  /** The unique key of the runs is never violated. */
  lemma KeysStayUnique(w: World, i: nat, j: nat)
    requires Reachable(w) && i < j < |w.runs|
    ensures w.runs[i].key != w.runs[j].key
  {
    ReachableInvariant(w);
    assert PairInvariant(w, w.runs[i], w.runs[j]);
  }

  /** A due claim creates a run exactly when no request through the API took its key. */
  lemma DueClaimCreatesExactly(w: World, id: Id)
    requires Reachable(w) && id in w.schedules && Due(w.schedules[id], w.now)
    ensures var created := Claim(w, id).runs == w.runs + [Run(ClaimKey(w, id), Claimed(id, w.now), RUNNING, true)];
      && (created || Claim(w, id).runs == w.runs)
      && (created <==> !exists i :: 0 <= i < |w.runs| && w.runs[i].origin.Requested? && w.runs[i].key == ClaimKey(w, id))
  {
    ReachableInvariant(w);
    assert LeaseInvariant(w.schedules[id]);
    var weekly := w.schedules[id].weekly;
    forall i | 0 <= i < |w.runs| && w.runs[i].key == ClaimKey(w, id)
      ensures w.runs[i].origin.Requested?
    {
      var r := w.runs[i];
      assert RunInvariant(w, r);
      if r.origin.Claimed? && r.origin.at + (if weekly then 7 * DAY else DAY) <= w.now {
        PeriodsDiffer(weekly, r.origin.at, w.now);
      }
    }
    assert |w.runs + [Run(ClaimKey(w, id), Claimed(id, w.now), RUNNING, true)]| == |w.runs| + 1;
  }

  /** The lease never decides: a due schedule always has a free one, since next_run_at outlasts it. */
  lemma LeaseNeverDecides(w: World, id: Id)
    requires Reachable(w) && id in w.schedules && Due(w.schedules[id], w.now)
    ensures LeaseFree(w.schedules[id], w.now)
  {
    ReachableInvariant(w);
    assert LeaseInvariant(w.schedules[id]);
  }

  // ---------------------------------------------------------------------------
  // No two executions of one schedule at once

  /** No execution has lasted longer than the limit. */
  ghost predicate InTime(w: World, limit: int) {
    forall i :: 0 <= i < |w.runs| && w.runs[i].live && w.runs[i].origin.Claimed? ==>
      w.now <= w.runs[i].origin.at + limit
  }

  ghost predicate Overlap(w: World) {
    exists i, j :: 0 <= i < j < |w.runs| && w.runs[i].live && w.runs[j].live
      && w.runs[i].origin.Claimed? && w.runs[j].origin.Claimed?
      && w.runs[i].origin.owner == w.runs[j].origin.owner
  }

  ghost predicate AlwaysInTime(w: World, steps: seq<Step>, limit: int)
    decreases steps
  {
    InTime(w, limit) && (steps == [] || AlwaysInTime(Apply(w, steps[0]), steps[1..], limit))
  }

  ghost predicate NeverOverlaps(limit: int) {
    forall w, steps :: Fresh(w) && AlwaysInTime(w, steps, limit) ==> !Overlap(After(w, steps))
  }

  lemma NoOverlapInTime(w: World, limit: int)
    requires Reachable(w) && InTime(w, limit) && limit < DAY
    ensures !Overlap(w)
  {
    ReachableInvariant(w);
    forall i, j | 0 <= i < j < |w.runs| && w.runs[i].live && w.runs[j].live
      && w.runs[i].origin.Claimed? && w.runs[j].origin.Claimed?
      ensures w.runs[i].origin.owner != w.runs[j].origin.owner
    {
      assert PairInvariant(w, w.runs[i], w.runs[j]);
      assert RunInvariant(w, w.runs[i]) && RunInvariant(w, w.runs[j]);
    }
  }

  lemma {:induction false} InTimeAtTheEnd(w: World, steps: seq<Step>, limit: int)
    requires AlwaysInTime(w, steps, limit)
    ensures InTime(After(w, steps), limit)
    decreases steps
  {
    if steps != [] {
      InTimeAtTheEnd(Apply(w, steps[0]), steps[1..], limit);
    }
  }

  function DailyStart(id: Id, t: int): World {
    World(t, map[id := Schedule(false, true, t, None)], [])
  }

  function FirstRun(id: Id, t: int): Run {
    Run(Scheduled(id, PeriodAt(false, t)), Claimed(id, t), RUNNING, true)
  }

  function DailyClaimed(id: Id, t: int, now: int): World {
    World(now, map[id := Schedule(false, true, t + DAY, Some(t + LEASE))], [FirstRun(id, t)])
  }

  lemma FirstClaim(id: Id, t: int)
    ensures Claim(DailyStart(id, t), id) == DailyClaimed(id, t, t)
  {
    var w := DailyStart(id, t);
    assert !HasKey(w.runs, ClaimKey(w, id));
    Overwritten(id, w.schedules[id], Schedule(false, true, t + DAY, Some(t + LEASE)));
  }

  lemma Overwritten(id: Id, s: Schedule, r: Schedule)
    ensures map[id := s][id := r] == map[id := r]
  {
  }

  lemma SecondClaim(id: Id, t: int, limit: int)
    requires limit >= DAY
    ensures Overlap(Claim(DailyClaimed(id, t, t + DAY), id))
    ensures InTime(Claim(DailyClaimed(id, t, t + DAY), id), limit)
  {
    var w := DailyClaimed(id, t, t + DAY);
    PeriodsDiffer(false, t, t + DAY);
    assert !HasKey(w.runs, ClaimKey(w, id));
    var next := Claim(w, id);
    assert next.runs == [FirstRun(id, t), Run(ClaimKey(w, id), Claimed(id, t + DAY), RUNNING, true)];
    assert next.runs[0].live && next.runs[1].live;
  }

  lemma FirstStep(w: World, step: Step, rest: seq<Step>, limit: int)
    ensures After(w, [step] + rest) == After(Apply(w, step), rest)
    ensures AlwaysInTime(w, [step] + rest, limit) <==> InTime(w, limit) && AlwaysInTime(Apply(w, step), rest, limit)
  {
    assert ([step] + rest)[0] == step && ([step] + rest)[1..] == rest;
  }

  function WaitAndClaim(id: Id): seq<Step> {
    [Wait(DAY)] + ([ClaimStep(id)] + [])
  }

  lemma SecondClaimInTime(id: Id, t: int, limit: int)
    requires limit >= DAY
    ensures AlwaysInTime(DailyClaimed(id, t, t), WaitAndClaim(id), limit)
    ensures After(DailyClaimed(id, t, t), WaitAndClaim(id)) == Claim(DailyClaimed(id, t, t + DAY), id)
  {
    var w := DailyClaimed(id, t, t + DAY);
    SecondClaim(id, t, limit);
    FirstStep(w, ClaimStep(id), [], limit);
    FirstStep(DailyClaimed(id, t, t), Wait(DAY), [ClaimStep(id)] + [], limit);
    ClaimedInTime(id, t, t + DAY, limit);
    ClaimedInTime(id, t, t, limit);
    NoSteps(Claim(w, id), limit);
    assert Apply(DailyClaimed(id, t, t), Wait(DAY)) == w && Apply(w, ClaimStep(id)) == Claim(w, id);
  }

  lemma NoSteps(w: World, limit: int)
    ensures After(w, []) == w && (AlwaysInTime(w, [], limit) <==> InTime(w, limit))
  {
  }

  lemma ClaimedInTime(id: Id, t: int, now: int, limit: int)
    requires now <= t + limit
    ensures InTime(DailyClaimed(id, t, now), limit)
  {
  }

  /** A run that lasts a whole day is still executing when the next one is claimed. */
  lemma WholeDayOverlaps(id: Id, t: int, limit: int)
    requires limit >= DAY
    ensures !NeverOverlaps(limit)
  {
    var w := DailyStart(id, t);
    FirstClaim(id, t);
    SecondClaimInTime(id, t, limit);
    SecondClaim(id, t, limit);
    FirstStep(w, ClaimStep(id), WaitAndClaim(id), limit);
    assert Apply(w, ClaimStep(id)) == DailyClaimed(id, t, t);
    assert Fresh(w) && AlwaysInTime(w, [ClaimStep(id)] + WaitAndClaim(id), limit);
  }

  /** No two executions of a schedule ever overlap exactly when every one ends in less than a day. */
  lemma NoOverlapExactly(limit: int)
    ensures NeverOverlaps(limit) <==> limit < DAY
  {
    if limit < DAY {
      forall w, steps | Fresh(w) && AlwaysInTime(w, steps, limit)
        ensures !Overlap(After(w, steps))
      {
        InTimeAtTheEnd(w, steps, limit);
        NoOverlapInTime(After(w, steps), limit);
      }
    } else {
      WholeDayOverlaps(Id("daily"), 0, limit);
    }
  }

  /** In particular for executions stopped by their time limit. */
  lemma TimeLimitPreventsOverlap()
    ensures NeverOverlaps(TIMEOUT)
  {
    NoOverlapExactly(TIMEOUT);
  }

  // ---------------------------------------------------------------------------
  // Crashed runs

  ghost predicate Stuck(r: Run) {
    r.status == RUNNING && !r.live
  }

  lemma StuckStays(w: World, step: Step, i: nat)
    requires i < |w.runs| && Stuck(w.runs[i])
    ensures i < |Apply(w, step).runs| && Apply(w, step).runs[i] == w.runs[i]
  {
  }

  /** A run whose worker died stays RUNNING whatever happens later, and its key never gets a run that ends. */
  lemma CrashedRunIsNeverReplaced(w: World, steps: seq<Step>, i: nat, j: nat)
    requires Reachable(w) && i < |w.runs| && Stuck(w.runs[i])
    requires j < |After(w, steps).runs| && After(w, steps).runs[j].key == w.runs[i].key
    ensures i < |After(w, steps).runs| && After(w, steps).runs[i] == w.runs[i]
    ensures After(w, steps).runs[j].status == RUNNING
  {
    ReachableOnward(w, steps);
    StuckStaysThrough(w, steps, i);
    if j < i {
      KeysStayUnique(After(w, steps), j, i);
    } else if j > i {
      KeysStayUnique(After(w, steps), i, j);
    }
  }

  lemma {:induction false} StuckStaysThrough(w: World, steps: seq<Step>, i: nat)
    requires i < |w.runs| && Stuck(w.runs[i])
    ensures i < |After(w, steps).runs| && After(w, steps).runs[i] == w.runs[i]
    decreases steps
  {
    if steps != [] {
      StuckStays(w, steps[0], i);
      StuckStaysThrough(Apply(w, steps[0]), steps[1..], i);
    }
  }

  lemma {:induction false} AfterBoth(w: World, first: seq<Step>, second: seq<Step>)
    ensures After(w, first + second) == After(After(w, first), second)
    decreases first
  {
    if first == [] {
      assert first + second == second;
    } else {
      assert (first + second)[0] == first[0] && (first + second)[1..] == first[1..] + second;
      AfterBoth(Apply(w, first[0]), first[1..], second);
    }
  }

  lemma ReachableOnward(w: World, steps: seq<Step>)
    requires Reachable(w)
    ensures Reachable(After(w, steps))
  {
    var start, before :| Fresh(start) && w == After(start, before);
    AfterBoth(start, before, steps);
  }

  ghost predicate Ends(w: World, i: nat) {
    exists steps :: i < |After(w, steps).runs| && After(w, steps).runs[i].status != RUNNING
  }

  lemma Reported(w: World, i: nat)
    requires i < |w.runs| && w.runs[i].live && w.runs[i].origin.Claimed?
    ensures Ends(w, i)
  {
    var steps := [FinishStep(i, true)];
    assert steps[1..] == [];
    var next := Finish(w, i, true);
    assert After(w, steps) == After(next, []) == next;
    assert next.runs[i].status == COMPLETED;
  }

  /** A claimed run that is RUNNING can still end exactly when a worker executes it. */
  lemma EndsExactly(w: World, i: nat)
    requires Reachable(w) && i < |w.runs| && w.runs[i].origin.Claimed? && w.runs[i].status == RUNNING
    ensures Ends(w, i) <==> w.runs[i].live
  {
    if w.runs[i].live {
      Reported(w, i);
    } else {
      forall steps ensures i < |After(w, steps).runs| && After(w, steps).runs[i].status == RUNNING {
        StuckStaysThrough(w, steps, i);
      }
    }
  }

  lemma ReachableByStep(w: World, step: Step)
    requires Reachable(w)
    ensures Reachable(Apply(w, step))
  {
    ReachableOnward(w, [step]);
    FirstStep(w, step, [], 0);
    NoSteps(Apply(w, step), 0);
    assert [step] + [] == [step];
  }

  /** Such runs occur: a daily schedule is claimed and its worker dies. */
  lemma CrashHappens(id: Id, t: int)
    ensures var w := Crash(Claim(DailyStart(id, t), id), 0);
      && Reachable(w) && |w.runs| == 1 && w.runs[0].origin == Claimed(id, t) && Stuck(w.runs[0]) && !Ends(w, 0)
  {
    var start := DailyStart(id, t);
    assert Fresh(start) && start == After(start, []);
    ReachableByStep(start, ClaimStep(id));
    ReachableByStep(Claim(start, id), CrashStep(0));
    FirstClaim(id, t);
    EndsExactly(Crash(Claim(start, id), 0), 0);
  }

  // ---------------------------------------------------------------------------
  // What each transaction writes

  /** A report ends the run as verified or failed, frees its schedule and changes nothing else. */
  lemma FinishExactly(w: World, i: nat, verified: bool)
    requires i < |w.runs| && w.runs[i].live && w.runs[i].origin.Claimed?
    ensures var next := Finish(w, i, verified);
      && |next.runs| == |w.runs| && !next.runs[i].live
      && (next.runs[i].status == COMPLETED <==> verified) && (next.runs[i].status == FAILED <==> !verified)
      && next.runs[i].key == w.runs[i].key && next.runs[i].origin == w.runs[i].origin
      && (forall j :: 0 <= j < |w.runs| && j != i ==> next.runs[j] == w.runs[j])
      && next.now == w.now && next.schedules.Keys == w.schedules.Keys
      && forall k :: k in w.schedules ==>
           next.schedules[k] == if k == w.runs[i].origin.owner then w.schedules[k].(lease := None) else w.schedules[k]
  {
  }

  /** A claim takes effect exactly when its schedule is enabled, due and free; then the schedule is leased for two hours and due again after one or seven days. */
  lemma ClaimExactly(w: World, id: Id)
    ensures var next := Claim(w, id);
      if id in w.schedules && w.schedules[id].enabled && w.schedules[id].nextRunAt <= w.now &&
         (w.schedules[id].lease.None? || w.schedules[id].lease.value < w.now) then
        var was, now := w.schedules[id], next.schedules[id];
        && next.schedules.Keys == w.schedules.Keys
        && now.enabled && now.weekly == was.weekly
        && now.lease == Some(w.now + 7_200_000)
        && now.nextRunAt - w.now == (if was.weekly then 604_800_000 else 86_400_000)
        && (forall k :: k in w.schedules && k != id ==> next.schedules[k] == w.schedules[k])
        && w.runs <= next.runs && |next.runs| <= |w.runs| + 1
        && (|next.runs| == |w.runs| + 1 ==>
              var r := next.runs[|w.runs|]; r.origin == Claimed(id, w.now) && r.status == RUNNING && r.live)
      else next == w
  {
  }

  /** Two times have one period exactly when they lie on one UTC date, or for a weekly schedule in one ISO week. */
  lemma SamePeriodExactly(weekly: bool, a: int, b: int)
    ensures PeriodAt(weekly, a) == PeriodAt(weekly, b) <==>
            if weekly then SameWeek(a / 86_400_000, b / 86_400_000) else a / 86_400_000 == b / 86_400_000
  {
    var m, n := a / DAY, b / DAY;
    if weekly {
      SamePeriodIffSameWeek(m, n);
    } else {
      assert DayNumber(CivilOf(m)) == m && DayNumber(CivilOf(n)) == n;
    }
  }

  lemma PausedStep(w: World, step: Step, id: Id)
    requires id in w.schedules && !w.schedules[id].enabled && step != SetEnabledStep(id, true)
    ensures var next := Apply(w, step);
      && id in next.schedules && !next.schedules[id].enabled
      && forall i :: |w.runs| <= i < |next.runs| ==> !ClaimedBy(next.runs[i], id)
  {
  }

  lemma RunsNeverRemoved(w: World, step: Step)
    ensures |w.runs| <= |Apply(w, step).runs|
    ensures forall i :: 0 <= i < |w.runs| ==> Apply(w, step).runs[i].origin == w.runs[i].origin
  {
  }

  /** While it is paused a schedule claims no run, whatever else happens. */
  lemma {:induction false} PausedClaimsNothing(w: World, steps: seq<Step>, id: Id, i: nat)
    requires id in w.schedules && !w.schedules[id].enabled && SetEnabledStep(id, true) !in steps
    requires |w.runs| <= i < |After(w, steps).runs|
    ensures !ClaimedBy(After(w, steps).runs[i], id)
    decreases steps
  {
    if steps != [] {
      var next := Apply(w, steps[0]);
      PausedStep(w, steps[0], id);
      if i < |next.runs| {
        OriginsStay(next, steps[1..], i);
      } else {
        PausedClaimsNothing(next, steps[1..], id, i);
      }
    }
  }

  lemma {:induction false} OriginsStay(w: World, steps: seq<Step>, i: nat)
    requires i < |w.runs|
    ensures i < |After(w, steps).runs| && After(w, steps).runs[i].origin == w.runs[i].origin
    decreases steps
  {
    if steps != [] {
      RunsNeverRemoved(w, steps[0]);
      OriginsStay(Apply(w, steps[0]), steps[1..], i);
    }
  }

  /** Pausing and resuming set the switch and free the schedule; they touch no run and no other schedule. */
  lemma SetEnabledExactly(w: World, id: Id, enabled: bool)
    requires id in w.schedules
    ensures var next := SetEnabled(w, id, enabled);
      && next.runs == w.runs && next.now == w.now && next.schedules.Keys == w.schedules.Keys
      && next.schedules[id].enabled == enabled && next.schedules[id].lease == None
      && next.schedules[id].nextRunAt == w.schedules[id].nextRunAt && next.schedules[id].weekly == w.schedules[id].weekly
      && forall k :: k in w.schedules && k != id ==> next.schedules[k] == w.schedules[k]
  {
  }
}

/** Retries of one consumer execution: attempts begin, end or are lost, and may overlap. */
module Retry {
  import opened Wrappers

  // ---------------------------------------------------------------------------
  // Errors and delays

  /** The number read from an SMTP reply; zero when there is none. */
  datatype Reply = Code(number: int) | NotANumber

  datatype JobError =
    | PermanentError(code: string)
    | RetryableError(code: string)
    | OtherError(reply: Reply, given: Option<string>)

  datatype Classified = Classified(retryable: bool, code: string)

  function Shortened(s: string, size: nat): string {
    if |s| <= size then s else s[..size]
  }

  predicate ConnectionCode(code: string) {
    code == "ECONNREFUSED" || code == "ETIMEDOUT"
  }

  function Classify(error: JobError): Classified {
    match error
    case PermanentError(code) => Classified(false, code)
    case RetryableError(code) => Classified(true, code)
    case OtherError(reply, given) =>
      var code := if given.Some? then given.value else "JOB_FAILED";
      Classified(
        (reply.Code? && (reply.number == 0 || reply.number >= 500)) || ConnectionCode(code),
        Shortened(code, 100))
  }

  function Clamp(low: int, n: int, high: int): int {
    if n < low then low else if n > high then high else n
  }

  function PowerOfTwo(n: nat): int {
    if n == 0 then 1 else 2 * PowerOfTwo(n - 1)
  }

  /** Doubles from one second up to two minutes. */
  function BaseDelay(attempt: int): int {
    var base := 1000 * PowerOfTwo(Clamp(1, attempt, 8) - 1);
    if base < 120_000 then base else 120_000
  }

  /** The absolute value of the remainder of JavaScript's division. */
  function Jitter(seed: int, range: int): int
    requires range > 0
  {
    if seed >= 0 then seed % range else (-seed) % range
  }

  function RetryDelayMs(attempt: int, seed: int): int {
    var fifth := BaseDelay(attempt) / 5;
    BaseDelay(attempt) + Jitter(seed, if fifth > 1 then fifth else 1)
  }

  lemma BaseDelays(attempt: int)
    ensures var b := Clamp(1, attempt, 8);
      BaseDelay(attempt) == [1000, 2000, 4000, 8000, 16000, 32000, 64000, 120_000][b - 1]
  {
    assert PowerOfTwo(1) == 2 && PowerOfTwo(2) == 4 && PowerOfTwo(3) == 8;
    assert PowerOfTwo(4) == 16 && PowerOfTwo(5) == 32 && PowerOfTwo(6) == 64 && PowerOfTwo(7) == 128;
  }

  /** Every delay is at least a second and less than two minutes and 24 seconds. */
  lemma DelayBounded(attempt: int, seed: int)
    ensures 1000 <= BaseDelay(attempt) <= RetryDelayMs(attempt, seed) < 144_000
    ensures 5 * RetryDelayMs(attempt, seed) < 6 * BaseDelay(attempt)
  {
    BaseDelays(attempt);
  }

  /** A later attempt waits longer, whatever the seeds, until the eighth. */
  lemma DelaysGrow(attempt: int, later: int, seed: int, laterSeed: int)
    requires 1 <= attempt < later <= 8
    ensures RetryDelayMs(attempt, seed) < RetryDelayMs(later, laterSeed)
  {
    BaseDelays(attempt);
    BaseDelays(later);
    DelayBounded(attempt, seed);
    DelayBounded(later, laterSeed);
  }

  // ---------------------------------------------------------------------------
  // The execution and its attempts

  datatype Status = PENDING | ENQUEUED | PROCESSING | COMPLETED | FAILED | DEAD_LETTER

  datatype Execution = Execution(
    status: Status,
    attempts: int,
    maxAttempts: int,
    availableAt: int,
    lockedBy: Option<int>,
    errorCode: Option<string>)

  /** `open` holds the numbers of the attempts that have begun and not ended. */
  datatype World = World(row: Execution, open: set<int>)

  predicate Finished(status: Status) {
    status == COMPLETED || status == DEAD_LETTER
  }

  /** A dispatcher takes a waiting execution, or one whose lock looks stale. */
  function Claim(row: Execution, worker: int): Execution {
    if Finished(row.status) then row else row.(status := ENQUEUED, lockedBy := Some(worker))
  }

  /** The dispatcher that holds the lock could not enqueue the job. */
  function FailEnqueue(row: Execution, worker: int, code: string, retryAt: int): Execution {
    if row.lockedBy != Some(worker) then row
    else row.(status := FAILED, availableAt := retryAt, lockedBy := None, errorCode := Some(Shortened(code, 100)))
  }

  /** Raises the attempt number and refuses finished executions. */
  function Begin(row: Execution, worker: int): Execution {
    if Finished(row.status) then row
    else row.(status := PROCESSING, attempts := row.attempts + 1, lockedBy := Some(worker), errorCode := None)
  }

  function Complete(row: Execution): Execution {
    row.(status := COMPLETED, lockedBy := None, errorCode := None)
  }

  predicate Terminal(error: JobError, attempt: int, maxAttempts: int) {
    !Classify(error).retryable || attempt >= maxAttempts
  }

  /** What a failed attempt writes, whatever the row says by then. */
  function Fail(row: Execution, attempt: int, error: JobError, now: int, seed: int): Execution {
    var terminal := Terminal(error, attempt, row.maxAttempts);
    row.(status := if terminal then DEAD_LETTER else FAILED,
         availableAt := if terminal then now else now + RetryDelayMs(attempt, seed),
         lockedBy := None,
         errorCode := Some(Classify(error).code))
  }

  datatype Step =
    | ClaimStep(worker: int)
    | FailEnqueueStep(worker: int, code: string, retryAt: int)
    | BeginStep(worker: int)
    | CompleteStep(attempt: int)
    | FailStep(attempt: int, error: JobError, now: int, seed: int)
    | LoseStep(attempt: int)

  function Apply(w: World, step: Step): World {
    match step
    case ClaimStep(worker) => w.(row := Claim(w.row, worker))
    case FailEnqueueStep(worker, code, retryAt) => w.(row := FailEnqueue(w.row, worker, code, retryAt))
    case BeginStep(worker) =>
      if Finished(w.row.status) then w
      else World(Begin(w.row, worker), w.open + {w.row.attempts + 1})
    case CompleteStep(attempt) =>
      if attempt in w.open then World(Complete(w.row), w.open - {attempt}) else w
    case FailStep(attempt, error, now, seed) =>
      if attempt in w.open then World(Fail(w.row, attempt, error, now, seed), w.open - {attempt}) else w
    case LoseStep(attempt) => w.(open := w.open - {attempt})
  }

  function After(w: World, steps: seq<Step>): World
    decreases steps
  {
    if steps == [] then w else After(Apply(w, steps[0]), steps[1..])
  }

  // ---------------------------------------------------------------------------
  // The stored row

  class ExecutionRow {
    var status: Status
    var attempts: int
    var maxAttempts: int
    var availableAt: int
    var lockedBy: Option<int>
    var errorCode: Option<string>

    function Contents(): Execution
      reads this
    {
      Execution(status, attempts, maxAttempts, availableAt, lockedBy, errorCode)
    }

    constructor (maxAttempts: int, now: int)
      ensures Contents() == Execution(PENDING, 0, maxAttempts, now, None, None)
    {
      status, attempts, this.maxAttempts, availableAt := PENDING, 0, maxAttempts, now;
      lockedBy, errorCode := None, None;
    }

    /** Answers with the number of the attempt, or nothing when the execution is finished. */
    method BeginConsumer(worker: int) returns (attempt: Option<int>)
      modifies this
      ensures Contents() == Begin(old(Contents()), worker)
      ensures attempt == if Finished(old(status)) then None else Some(old(attempts) + 1)
    {
      if status == COMPLETED || status == DEAD_LETTER {
        return None;
      }
      status := PROCESSING;
      attempts := attempts + 1;
      lockedBy := Some(worker);
      errorCode := None;
      attempt := Some(attempts);
    }

    method CompleteConsumer()
      modifies this
      ensures Contents() == Complete(old(Contents()))
    {
      status := COMPLETED;
      lockedBy := None;
      errorCode := None;
    }

    /** Answers whether the failure is final. */
    method FailConsumer(attempt: int, error: JobError, now: int, seed: int) returns (terminal: bool)
      modifies this
      ensures Contents() == Fail(old(Contents()), attempt, error, now, seed)
      ensures terminal == Terminal(error, attempt, maxAttempts)
    {
      var classified := Classify(error);
      terminal := !classified.retryable || attempt >= maxAttempts;
      if terminal {
        status := DEAD_LETTER;
        availableAt := now;
      } else {
        status := FAILED;
        availableAt := now + RetryDelayMs(attempt, seed);
      }
      lockedBy := None;
      errorCode := Some(classified.code);
    }
  }

  // ---------------------------------------------------------------------------
  // Which errors are retried

  /** A transient SMTP reply is retried only on account of a connection code; otherwise its first failure is final. */
  lemma TransientReplyRetriedExactly(reply: int, given: Option<string>, attempt: int, maxAttempts: int)
    requires 400 <= reply < 500
    ensures !Terminal(OtherError(Code(reply), given), attempt, maxAttempts) <==>
            attempt < maxAttempts && given.Some? && ConnectionCode(given.value)
  {
  }

  /** A permanent SMTP reply is final only when the attempts are used up. */
  lemma PermanentReplyFinalExactly(reply: int, given: Option<string>, attempt: int, maxAttempts: int)
    requires 500 <= reply < 600
    ensures Terminal(OtherError(Code(reply), given), attempt, maxAttempts) <==> attempt >= maxAttempts
  {
  }

  /** What section 4.2.1 of RFC 5321 calls for: a transient reply is retried while attempts are left, a permanent one never. */
  predicate FollowsReply(reply: int, given: Option<string>, attempt: int, maxAttempts: int) {
    Terminal(OtherError(Code(reply), given), attempt, maxAttempts) <==> reply >= 500 || attempt >= maxAttempts
  }

  /** The classification follows the reply exactly on the last attempt, or for a transient reply with a connection code. */
  lemma ReplyFollowedExactly(reply: int, given: Option<string>, attempt: int, maxAttempts: int)
    requires 400 <= reply < 600
    ensures FollowsReply(reply, given, attempt, maxAttempts) <==>
            attempt >= maxAttempts || (reply < 500 && given.Some? && ConnectionCode(given.value))
  {
    if reply < 500 {
      TransientReplyRetriedExactly(reply, given, attempt, maxAttempts);
    } else {
      PermanentReplyFinalExactly(reply, given, attempt, maxAttempts);
    }
  }

  // ---------------------------------------------------------------------------
  // What every run keeps

  ghost predicate Coherent(w: World) {
    && 0 <= w.row.attempts
    && (forall k :: k in w.open ==> 1 <= k <= w.row.attempts)
    && (Finished(w.row.status) ==> w.row.lockedBy.None?)
  }

  function Start(maxAttempts: int, now: int): World {
    World(Execution(PENDING, 0, maxAttempts, now, None, None), {})
  }

  lemma StepKeepsCoherent(w: World, step: Step)
    requires Coherent(w)
    ensures Coherent(Apply(w, step)) && Apply(w, step).row.maxAttempts == w.row.maxAttempts
  {
  }

  lemma {:induction false} RunKeepsCoherent(w: World, steps: seq<Step>)
    requires Coherent(w)
    ensures Coherent(After(w, steps)) && After(w, steps).row.maxAttempts == w.row.maxAttempts
    decreases steps
  {
    if steps != [] {
      StepKeepsCoherent(w, steps[0]);
      RunKeepsCoherent(Apply(w, steps[0]), steps[1..]);
    }
  }

  // ---------------------------------------------------------------------------
  // Finality

  /** Some attempt still running could end in a retry. */
  predicate CanReopen(w: World) {
    exists k :: k in w.open && k < w.row.maxAttempts
  }

  ghost predicate Reopens(w: World) {
    exists steps :: !Finished(After(w, steps).row.status)
  }

  lemma FinishedStays(w: World, step: Step)
    requires Coherent(w) && Finished(w.row.status) && !CanReopen(w)
    ensures var next := Apply(w, step);
      Finished(next.row.status) && !CanReopen(next) && next.row.attempts == w.row.attempts
  {
  }

  lemma {:induction false} FinishedStaysThrough(w: World, steps: seq<Step>)
    requires Coherent(w) && Finished(w.row.status) && !CanReopen(w)
    ensures Finished(After(w, steps).row.status) && After(w, steps).row.attempts == w.row.attempts
    decreases steps
  {
    if steps != [] {
      FinishedStays(w, steps[0]);
      StepKeepsCoherent(w, steps[0]);
      FinishedStaysThrough(Apply(w, steps[0]), steps[1..]);
    }
  }

  /** A finished execution can be reopened exactly when an attempt below the limit is still open. */
  lemma ReopensExactly(w: World)
    requires Coherent(w) && Finished(w.row.status)
    ensures Reopens(w) <==> CanReopen(w)
  {
    if CanReopen(w) {
      var k :| k in w.open && k < w.row.maxAttempts;
      var step := FailStep(k, RetryableError("X"), 0, 0);
      assert After(w, [step]) == Apply(w, step);
      assert !Finished(After(w, [step]).row.status);
    } else {
      forall steps ensures Finished(After(w, steps).row.status) {
        FinishedStaysThrough(w, steps);
      }
    }
  }

  lemma FiveSteps(w: World, a: Step, b: Step, c: Step, d: Step, e: Step)
    ensures After(w, [a, b, c]) == Apply(Apply(Apply(w, a), b), c)
    ensures After(w, [a, b, c] + [d, e]) == Apply(Apply(Apply(Apply(Apply(w, a), b), c), d), e)
  {
    FirstStep(w, a, [b, c]);
    FirstStep(Apply(w, a), b, [c]);
    FirstStep(Apply(Apply(w, a), b), c, []);
    assert [a] + [b, c] == [a, b, c] && [b] + [c] == [b, c] && [c] + [] == [c];
    AfterBoth(w, [a, b, c], [d, e]);
    var v := After(w, [a, b, c]);
    FirstStep(v, d, [e]);
    FirstStep(Apply(v, d), e, []);
    assert [d] + [e] == [d, e] && [e] + [] == [e];
  }

  lemma FirstStep(w: World, step: Step, rest: seq<Step>)
    ensures After(w, [step] + rest) == After(Apply(w, step), rest)
  {
    assert ([step] + rest)[1..] == rest;
  }

  lemma {:induction false} AfterBoth(w: World, first: seq<Step>, second: seq<Step>)
    ensures After(w, first + second) == After(After(w, first), second)
    decreases first
  {
    if first == [] {
      assert first + second == second;
    } else {
      assert first + second == [first[0]] + (first[1..] + second);
      FirstStep(w, first[0], first[1..] + second);
      AfterBoth(Apply(w, first[0]), first[1..], second);
    }
  }

  /** Two overlapping attempts suffice: a completed execution is begun a third time. */
  lemma CompletedExecutionRunsAgain(maxAttempts: int, now: int)
    requires maxAttempts >= 2
    ensures exists steps, more :: (
      var w, v := After(Start(maxAttempts, now), steps), After(Start(maxAttempts, now), steps + more);
      w.row.status == COMPLETED && v.row.status == PROCESSING && v.row.attempts > w.row.attempts)
  {
    var start := Start(maxAttempts, now);
    var begin, complete, fail := BeginStep(0), CompleteStep(2), FailStep(1, RetryableError("X"), now, 36);
    FiveSteps(start, begin, begin, complete, fail, begin);
    var w := After(start, [begin, begin, complete]);
    assert w.row.status == COMPLETED && w.open == {1} && w.row.attempts == 2;
    var v := After(start, [begin, begin, complete] + [fail, begin]);
    assert v.row.status == PROCESSING && v.row.attempts == 3;
  }

  // ---------------------------------------------------------------------------
  // Bounds

  predicate RetriedBy(w: World, step: Step) {
    step.FailStep? && step.attempt in w.open && !Terminal(step.error, step.attempt, w.row.maxAttempts)
  }

  /** How many failures in a run ask for a retry. */
  function Retries(w: World, steps: seq<Step>): nat
    decreases steps
  {
    if steps == [] then 0
    else (if RetriedBy(w, steps[0]) then 1 else 0) + Retries(Apply(w, steps[0]), steps[1..])
  }

  function BelowLimit(open: set<int>, limit: int): set<int> {
    set k | k in open && k < limit
  }

  /** The retries still possible: attempts below the limit that are open or not begun. */
  function Potential(w: World): nat {
    |BelowLimit(w.open, w.row.maxAttempts)|
    + if w.row.attempts < w.row.maxAttempts - 1 then w.row.maxAttempts - 1 - w.row.attempts else 0
  }

  lemma AddedBelow(open: set<int>, k: int, limit: int)
    ensures |BelowLimit(open + {k}, limit)| <= |BelowLimit(open, limit)| + if k < limit then 1 else 0
  {
    if k < limit {
      assert BelowLimit(open + {k}, limit) == BelowLimit(open, limit) + {k};
    } else {
      assert BelowLimit(open + {k}, limit) == BelowLimit(open, limit);
    }
  }

  lemma RemovedBelow(open: set<int>, k: int, limit: int)
    ensures |BelowLimit(open - {k}, limit)| + (if k in open && k < limit then 1 else 0) == |BelowLimit(open, limit)|
  {
    assert BelowLimit(open - {k}, limit) == BelowLimit(open, limit) - {k};
  }

  lemma PotentialFalls(w: World, step: Step)
    requires Coherent(w)
    ensures Potential(Apply(w, step)) + (if RetriedBy(w, step) then 1 else 0) <= Potential(w)
  {
    match step
    case ClaimStep(_) =>
    case FailEnqueueStep(_, _, _) =>
    case BeginStep(_) => AddedBelow(w.open, w.row.attempts + 1, w.row.maxAttempts);
    case CompleteStep(k) => RemovedBelow(w.open, k, w.row.maxAttempts);
    case FailStep(k, _, _, _) => RemovedBelow(w.open, k, w.row.maxAttempts);
    case LoseStep(k) => RemovedBelow(w.open, k, w.row.maxAttempts);
  }

  lemma {:induction false} RetriesWithinPotential(w: World, steps: seq<Step>)
    requires Coherent(w)
    ensures Retries(w, steps) + Potential(After(w, steps)) <= Potential(w)
    decreases steps
  {
    if steps != [] {
      PotentialFalls(w, steps[0]);
      StepKeepsCoherent(w, steps[0]);
      RetriesWithinPotential(Apply(w, steps[0]), steps[1..]);
    }
  }

  /** However attempts overlap or get lost, fewer failures than the limit ask for a retry. */
  lemma RetriesBounded(maxAttempts: int, now: int, steps: seq<Step>)
    requires maxAttempts >= 1
    ensures Retries(Start(maxAttempts, now), steps) < maxAttempts
  {
    RetriesWithinPotential(Start(maxAttempts, now), steps);
    assert BelowLimit({}, maxAttempts) == {};
  }

  /** One attempt at a time, each of which completes or fails. */
  predicate Orderly(w: World, steps: seq<Step>)
    decreases steps
  {
    steps == [] ||
    (&& (steps[0].BeginStep? ==> w.open == {})
     && !steps[0].LoseStep?
     && Orderly(Apply(w, steps[0]), steps[1..]))
  }

  ghost predicate OneAtATime(w: World) {
    && (w.open == {} || w.open == {w.row.attempts})
    && w.row.attempts <= w.row.maxAttempts
    && (w.open == {} && !Finished(w.row.status) ==> w.row.attempts < w.row.maxAttempts)
    && Coherent(w)
  }

  lemma OrderlyStep(w: World, step: Step)
    requires OneAtATime(w) && (step.BeginStep? ==> w.open == {}) && !step.LoseStep?
    ensures OneAtATime(Apply(w, step))
    ensures w.open == {} && Finished(w.row.status) ==> Apply(w, step) == w
  {
    StepKeepsCoherent(w, step);
    match step
    case CompleteStep(k) => assert w.open == {k} || k !in w.open;
    case FailStep(k, _, _, _) => assert w.open == {k} || k !in w.open;
    case _ =>
  }

  lemma {:induction false} OrderlyRun(w: World, steps: seq<Step>)
    requires OneAtATime(w) && Orderly(w, steps)
    ensures OneAtATime(After(w, steps))
    ensures w.open == {} && Finished(w.row.status) ==> After(w, steps) == w
    decreases steps
  {
    if steps != [] {
      OrderlyStep(w, steps[0]);
      OrderlyRun(Apply(w, steps[0]), steps[1..]);
    }
  }

  /** In an orderly run there are at most maxAttempts attempts, and a finished execution never changes again. */
  lemma OrderlyAttemptsBounded(maxAttempts: int, now: int, steps: seq<Step>, more: seq<Step>)
    requires maxAttempts >= 1
    requires Orderly(Start(maxAttempts, now), steps) && Orderly(After(Start(maxAttempts, now), steps), more)
    ensures var w := After(Start(maxAttempts, now), steps);
      && w.row.attempts <= maxAttempts
      && (Finished(w.row.status) && w.open == {} ==> After(w, more) == w)
  {
    OrderlyRun(Start(maxAttempts, now), steps);
    RunKeepsCoherent(Start(maxAttempts, now), steps);
    OrderlyRun(After(Start(maxAttempts, now), steps), more);
  }

  /** Lost attempts are not bounded: an execution whose attempts all get lost is begun any number of times. */
  lemma {:induction false} LostAttemptsUnbounded(w: World, n: nat) returns (steps: seq<Step>)
    requires !Finished(w.row.status)
    ensures !Finished(After(w, steps).row.status)
    ensures After(w, steps).row.attempts == w.row.attempts + n
    decreases n
  {
    if n == 0 {
      steps := [];
    } else {
      var begin, lose := BeginStep(0), LoseStep(w.row.attempts + 1);
      var next := Apply(Apply(w, begin), lose);
      var rest := LostAttemptsUnbounded(next, n - 1);
      FirstStep(Apply(w, begin), lose, rest);
      FirstStep(w, begin, [lose] + rest);
      steps := [begin] + ([lose] + rest);
    }
  }

  ghost predicate Exceeds(w: World, bound: int) {
    exists steps :: After(w, steps).row.attempts > bound
  }

  lemma LostAttemptsExceed(w: World, bound: int)
    requires !Finished(w.row.status)
    ensures Exceeds(w, bound)
  {
    var n := if bound >= w.row.attempts then bound + 1 - w.row.attempts else 1;
    var steps := LostAttemptsUnbounded(w, n);
    assert After(w, steps).row.attempts > bound;
  }

  /** The attempts can pass every bound exactly while the execution is unfinished or can be reopened. */
  lemma AttemptsUnboundedExactly(w: World)
    requires Coherent(w)
    ensures (forall bound: int :: Exceeds(w, bound)) <==> !Finished(w.row.status) || CanReopen(w)
  {
    if !Finished(w.row.status) {
      forall bound: int ensures Exceeds(w, bound) {
        LostAttemptsExceed(w, bound);
      }
    } else if CanReopen(w) {
      var k :| k in w.open && k < w.row.maxAttempts;
      var step := FailStep(k, RetryableError("X"), 0, 0);
      var next := Apply(w, step);
      forall bound: int ensures Exceeds(w, bound) {
        LostAttemptsExceed(next, bound);
        var steps :| After(next, steps).row.attempts > bound;
        FirstStep(w, step, steps);
        assert After(w, [step] + steps).row.attempts > bound;
      }
    } else {
      forall steps ensures After(w, steps).row.attempts == w.row.attempts {
        FinishedStaysThrough(w, steps);
      }
      assert !Exceeds(w, w.row.attempts);
    }
  }

  // ---------------------------------------------------------------------------
  // What a failure writes

  /** An error says itself whether it may be retried; of others, exactly those without a reply, with a reply from 500 or with a connection code are. */
  lemma RetryableExactly(error: JobError)
    ensures Classify(error).retryable <==>
      match error
      case PermanentError(_) => false
      case RetryableError(_) => true
      case OtherError(reply, given) =>
        || reply == Code(0) || (reply.Code? && reply.number >= 500)
        || given == Some("ECONNREFUSED") || given == Some("ETIMEDOUT")
  {
    assert "JOB_FAILED"[0] == 'J' && "ECONNREFUSED"[0] == 'E' && "ETIMEDOUT"[0] == 'E';
  }

  /**
   The failed attempt of a retryable error below the limit makes the execution FAILED and lets it
   wait for its delay, which is at least 1, 2, 4 ... 64 and then 120 seconds and less than a fifth
   more; any other failure makes it a dead letter at once.
   */
  lemma FailExactly(row: Execution, attempt: int, error: JobError, now: int, seed: int)
    ensures var next := Fail(row, attempt, error, now, seed);
      var base := [1000, 2000, 4000, 8000, 16000, 32000, 64000, 120_000][Clamp(1, attempt, 8) - 1];
      && next.attempts == row.attempts && next.maxAttempts == row.maxAttempts && next.lockedBy == None
      && next.errorCode == Some(Classify(error).code)
      && (if Classify(error).retryable && attempt < row.maxAttempts then
            next.status == FAILED && base <= next.availableAt - now && 5 * (next.availableAt - now) < 6 * base
          else next.status == DEAD_LETTER && next.availableAt == now)
  {
    BaseDelays(attempt);
    DelayBounded(attempt, seed);
  }

  /** Only the dispatcher that holds the lock can record that its job was not enqueued. */
  lemma FailEnqueueExactly(row: Execution, worker: int, code: string, retryAt: int)
    ensures var next := FailEnqueue(row, worker, code, retryAt);
      if row.lockedBy == Some(worker) then
        next.status == FAILED && next.availableAt == retryAt && next.lockedBy == None && next.attempts == row.attempts
      else next == row
  {
  }
}

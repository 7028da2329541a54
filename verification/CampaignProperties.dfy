/** What holds of a campaign over every interleaving of worker and API transactions. */
module CampaignProperties {
  import opened Ordering
  import opened Campaign

  // ---------------------------------------------------------------------------
  // The counts

  lemma {:induction false} CountsBounds(rs: seq<Recipient>)
    ensures 0 <= InFlightCount(rs) <= MovesLeft(rs)
    ensures 0 <= FailedCount(rs)
    ensures InFlightCount(rs) == 0 ==> MovesLeft(rs) == 0
    ensures InFlightCount(rs) == 0 <==> forall i :: 0 <= i < |rs| ==> !InFlight(rs[i])
    ensures FailedCount(rs) == 0 <==> forall i :: 0 <= i < |rs| ==> !rs[i].status.Failed?
  {
    if rs != [] {
      CountsBounds(rs[..|rs| - 1]);
      assert rs == rs[..|rs| - 1] + [rs[|rs| - 1]];
    }
  }

  lemma CountsUpdate(rs: seq<Recipient>, i: nat, r: Recipient)
    requires i < |rs|
    ensures InFlightCount(rs[i := r]) ==
      InFlightCount(rs) - (if InFlight(rs[i]) then 1 else 0) + (if InFlight(r) then 1 else 0)
    ensures FailedCount(rs[i := r]) ==
      FailedCount(rs) - (if rs[i].status.Failed? then 1 else 0) + (if r.status.Failed? then 1 else 0)
    ensures InFlight(rs[i]) && !InFlight(r) ==> MovesLeft(rs[i := r]) < MovesLeft(rs)
  {
    SumUpdate(rs, i, r, (x: Recipient) => if InFlight(x) then 1 else 0);
    SumUpdate(rs, i, r, (x: Recipient) => if x.status.Failed? then 1 else 0);
    SumUpdate(rs, i, r, (x: Recipient) => if x.status.Pending? then 2 else if x.status.Queued? then 1 else 0);
  }

  // ---------------------------------------------------------------------------
  // A settled campaign

  /**
   A completed or partial campaign has nothing in flight, and it is partial exactly when
   some recipient failed.
   */
  ghost predicate Coherent(db: Db) {
    Over(db.status) ==>
      InFlightCount(db.recipients) == 0 && (db.status.Partial? <==> FailedCount(db.recipients) > 0)
  }

  lemma FinalizeCoherent(db: Db, actor: bool)
    requires Coherent(db)
    ensures Coherent(Finalize(db, actor))
  {
    CountsBounds(db.recipients);
  }

  /** A row leaves the flight while the campaign is not over. */
  lemma RowLeavesCoherent(db: Db, r: nat, row: Recipient, log: seq<Event>, actor: bool)
    requires Coherent(db) && r < |db.recipients| && InFlight(db.recipients[r]) && !InFlight(row)
    ensures Coherent(Finalize(db.(recipients := db.recipients[r := row], log := log), actor))
  {
    CountsBounds(db.recipients);
    FinalizeCoherent(db.(recipients := db.recipients[r := row], log := log), actor);
  }

  lemma StepCoherent(db: Db, step: Step)
    requires Coherent(db)
    ensures Coherent(Apply(db, step))
  {
    match step
    case DeliverStep(r, around) =>
      if Deliver(db, r, around) != db {
        var row := db.recipients[r];
        RowLeavesCoherent(db, r, Moved(row, Cancelled), db.log, true);
        RowLeavesCoherent(db, r, Moved(row, Sent).(accepted := true), db.log + [EmailSent(r)], true);
      }
    case FailStep(r, terminal, actor) =>
      if FailDelivery(db, r, terminal, actor) != db {
        RowLeavesCoherent(db, r, Moved(db.recipients[r], Failed), db.log, actor);
      }
    case SkipStep(_) => FinalizeCoherent(db, true);
    case SummaryStep(actor) => FinalizeCoherent(db, actor);
    case _ =>
  }

  lemma {:induction false} RunCoherent(db: Db, steps: seq<Step>)
    requires Coherent(db)
    ensures Coherent(Run(db, steps))
  {
    if steps != [] {
      RunCoherent(db, steps[..|steps| - 1]);
      StepCoherent(Run(db, steps[..|steps| - 1]), steps[|steps| - 1]);
    }
  }

  // ---------------------------------------------------------------------------
  // Each recipient is sent at most one message

  function SendTo(r: nat): Event -> int {
    (e: Event) => if e == EmailSent(r) then 1 else 0
  }

  function Sends(log: seq<Event>, r: nat): int {
    Sum(log, SendTo(r))
  }

  lemma SendsAppend(log: seq<Event>, more: seq<Event>, r: nat)
    ensures Sends(log + more, r) == Sends(log, r) + Sends(more, r)
  {
    SumAppend(log, more, SendTo(r));
  }

  lemma SendsOne(e: Event, r: nat)
    ensures Sends([e], r) == if e == EmailSent(r) then 1 else 0
  {
    var es := [e];
    assert es[..|es| - 1] == [];
    assert Sum(es[..|es| - 1], SendTo(r)) == 0;
  }

  lemma {:induction false} RequestsSendNothing(rs: seq<Recipient>, r: nat)
    ensures Sends(DeliveryRequests(rs), r) == 0
  {
    if rs != [] {
      var i := |rs| - 1;
      RequestsSendNothing(rs[..i], r);
      var more := if rs[i].status.Pending? then [DeliveryRequested(i, rs[i].version + 1)] else [];
      SendsAppend(DeliveryRequests(rs[..i]), more, r);
      SendsOne(DeliveryRequested(i, rs[i].version + 1), r);
    }
  }

  /** The log and the rows agree about who was sent a message, and nobody was sent two. */
  ghost predicate SentOnce(db: Db) {
    && (forall r :: 0 <= r < |db.recipients| ==> NotReportedOn(db.recipients[r]))
    && forall r: nat :: Sends(db.log, r) == if IsSent(db.recipients, r) then 1 else 0
  }

  /** The provider has said nothing about the row beyond accepting its message. */
  predicate NotReportedOn(r: Recipient) {
    (r.accepted <==> r.status.Sent?) && !r.status.Delivered? && !r.status.Opened?
  }

  predicate IsSent(rs: seq<Recipient>, r: nat) {
    r < |rs| && rs[r].status.Sent?
  }

  lemma FinalizeSentOnce(db: Db, actor: bool)
    requires SentOnce(db)
    ensures SentOnce(Finalize(db, actor))
  {
    var next := Finalize(db, actor);
    forall r: nat ensures Sends(next.log, r) == Sends(db.log, r) {
      var settled := CampaignSettled(FailedCount(db.recipients), db.version + 1);
      SendsAppend(db.log, [settled], r);
      SendsOne(settled, r);
      assert db.log + [] == db.log;
    }
  }

  lemma SendKeepsSentOnce(db: Db, r: nat)
    requires SentOnce(db) && r < |db.recipients| && InFlight(db.recipients[r])
    ensures SentOnce(db.(recipients := db.recipients[r := Moved(db.recipients[r], Sent).(accepted := true)],
                         log := db.log + [EmailSent(r)]))
  {
    forall k: nat ensures Sends(db.log + [EmailSent(r)], k) == Sends(db.log, k) + (if k == r then 1 else 0) {
      SendsAppend(db.log, [EmailSent(r)], k);
      SendsOne(EmailSent(r), k);
    }
  }

  lemma LoggedNothingSent(log: seq<Event>, e: Event)
    requires !e.EmailSent?
    ensures forall r: nat :: Sends(log + [e], r) == Sends(log, r)
  {
    forall r: nat ensures Sends(log + [e], r) == Sends(log, r) {
      SendsAppend(log, [e], r);
      SendsOne(e, r);
    }
  }

  lemma FanoutSentOnce(db: Db)
    requires SentOnce(db)
    ensures SentOnce(Fanout(db))
  {
    forall r: nat ensures Sends(db.log + DeliveryRequests(db.recipients), r) == Sends(db.log, r) {
      SendsAppend(db.log, DeliveryRequests(db.recipients), r);
      RequestsSendNothing(db.recipients, r);
    }
  }

  lemma DeliverSentOnce(db: Db, r: nat, around: Surroundings)
    requires SentOnce(db)
    ensures SentOnce(Deliver(db, r, around))
  {
    if Deliver(db, r, around) != db {
      SendKeepsSentOnce(db, r);
      var row := db.recipients[r];
      FinalizeSentOnce(db.(recipients := db.recipients[r := Moved(row, Cancelled)]), true);
      FinalizeSentOnce(db.(recipients := db.recipients[r := Moved(row, Sent).(accepted := true)],
                           log := db.log + [EmailSent(r)]), true);
    }
  }

  lemma RequestSentOnce(db: Db, added: nat, chosen: set<nat>, later: bool)
    requires SentOnce(db)
    ensures SentOnce(RequestSend(db, added, chosen, later))
  {
    LoggedNothingSent(db.log, SendRequested);
    var next := RequestSend(db, added, chosen, later);
    if next != db {
      forall r: nat ensures IsSent(next.recipients, r) == IsSent(db.recipients, r) {}
      forall r | 0 <= r < |next.recipients| ensures NotReportedOn(next.recipients[r]) {
        assert r < |db.recipients| ==> NotReportedOn(db.recipients[r]);
      }
    }
  }

  lemma OrganiserSentOnce(db: Db, step: Step)
    requires SentOnce(db) && !ByWorker(step)
    ensures SentOnce(Apply(db, step))
  {
    match step
    case RequestSendStep(added, chosen, later) => RequestSentOnce(db, added, chosen, later);
    case RetryFailedStep => LoggedNothingSent(db.log, SendRequested);
    case _ =>
  }

  lemma StepSentOnce(db: Db, step: Step)
    requires SentOnce(db)
    ensures SentOnce(Apply(db, step))
  {
    match step
    case FanoutStep => FanoutSentOnce(db);
    case DeliverStep(r, around) => DeliverSentOnce(db, r, around);
    case FailStep(r, terminal, actor) =>
      if FailDelivery(db, r, terminal, actor) != db {
        FinalizeSentOnce(db.(recipients := db.recipients[r := Moved(db.recipients[r], Failed)]), actor);
      }
    case SkipStep(_) => FinalizeSentOnce(db, true);
    case SummaryStep(actor) => FinalizeSentOnce(db, actor);
    case _ => OrganiserSentOnce(db, step);
  }

  /** Over every run no recipient is sent a second message, however deliveries and retries interleave. */
  lemma {:induction false} RunSentOnce(steps: seq<Step>, r: nat)
    ensures SentOnce(Run(NewCampaign, steps))
    ensures var db := Run(NewCampaign, steps);
      Sends(db.log, r) <= 1 &&
      (Sends(db.log, r) == 1 <==> r < |db.recipients| && db.recipients[r].status.Sent?)
  {
    if steps != [] {
      RunSentOnce(steps[..|steps| - 1], r);
      StepSentOnce(Run(NewCampaign, steps[..|steps| - 1]), steps[|steps| - 1]);
    }
  }

  // ---------------------------------------------------------------------------
  // Settlement happens at once, exactly once

  function Settlements(log: seq<Event>): int {
    Sum(log, (e: Event) => if e.CampaignSettled? then 1 else 0)
  }

  lemma SettlementsOneMore(log: seq<Event>, e: Event)
    ensures Settlements(log + [e]) == Settlements(log) + (if e.CampaignSettled? then 1 else 0)
  {
    assert (log + [e])[..|log|] == log;
  }

  lemma {:induction false} RequestsSettleNothing(log: seq<Event>, rs: seq<Recipient>)
    ensures Settlements(log + DeliveryRequests(rs)) == Settlements(log)
  {
    if rs == [] {
      assert log + [] == log;
    } else {
      var i := |rs| - 1;
      RequestsSettleNothing(log, rs[..i]);
      if rs[i].status.Pending? {
        var e := DeliveryRequested(i, rs[i].version + 1);
        SettlementsOneMore(log + DeliveryRequests(rs[..i]), e);
        assert log + DeliveryRequests(rs) == log + DeliveryRequests(rs[..i]) + [e];
      } else {
        assert DeliveryRequests(rs) == DeliveryRequests(rs[..i]);
      }
    }
  }

  lemma FinalizeSettles(db: Db, actor: bool)
    ensures var next := Finalize(db, actor);
      && next.recipients == db.recipients
      && (Active(db.status) && InFlightCount(db.recipients) == 0 ==>
            next.status == (if FailedCount(db.recipients) > 0 then Partial else Completed) &&
            Settlements(next.log) == Settlements(db.log) + (if actor then 1 else 0) &&
            (actor ==> next.log[|next.log| - 1] == CampaignSettled(FailedCount(db.recipients), next.version)))
      && (!Active(db.status) || InFlightCount(db.recipients) != 0 ==> next == db)
  {
    CountsBounds(db.recipients);
    SettlementsOneMore(db.log, CampaignSettled(FailedCount(db.recipients), db.version + 1));
    assert db.log + [] == db.log;
  }

  /** The job behind a worker step carries a workspace and a user. */
  predicate HasActor(step: Step) {
    match step
    case FailStep(_, _, actor) => actor
    case SummaryStep(actor) => actor
    case _ => true
  }

  lemma QueueRowsKeepsFlight(rs: seq<Recipient>)
    ensures InFlightCount(QueueRows(rs)) == InFlightCount(rs)
    ensures MovesLeft(QueueRows(rs)) <= MovesLeft(rs)
    ensures QueueRows(rs) != rs ==> MovesLeft(QueueRows(rs)) < MovesLeft(rs)
  {
    if rs != [] {
      var front := rs[..|rs| - 1];
      QueueRowsKeepsFlight(front);
      assert QueueRows(rs)[..|rs| - 1] == QueueRows(front);
      assert rs == front + [rs[|rs| - 1]];
    }
  }

  /**
   While a campaign is being sent, the worker step that takes the last recipient out of
   flight settles it in the same transaction, with the outcome its rows call for and one
   settlement event if the job has an actor; no other worker step settles it.
   */
  lemma SettledAtOnce(db: Db, step: Step)
    requires ByWorker(step) && Active(db.status) && InFlightCount(db.recipients) > 0
    ensures var next := Apply(db, step);
      && (InFlightCount(next.recipients) > 0 ==>
            Active(next.status) && Settlements(next.log) == Settlements(db.log))
      && (InFlightCount(next.recipients) == 0 ==>
            next.status == (if FailedCount(next.recipients) > 0 then Partial else Completed) &&
            Settlements(next.log) == Settlements(db.log) + (if HasActor(step) then 1 else 0))
      && InFlightCount(next.recipients) >= 0
  {
    CountsBounds(Apply(db, step).recipients);
    match step
    case FanoutStep =>
      QueueRowsKeepsFlight(db.recipients);
      RequestsSettleNothing(db.log, db.recipients);
    case DeliverStep(r, around) =>
      if Deliver(db, r, around) != db {
        var row := db.recipients[r];
        SettlementsOneMore(db.log, EmailSent(r));
        FinalizeSettles(db.(recipients := db.recipients[r := Moved(row, Cancelled)]), true);
        FinalizeSettles(db.(recipients := db.recipients[r := Moved(row, Sent).(accepted := true)],
                            log := db.log + [EmailSent(r)]), true);
      }
    case FailStep(r, terminal, actor) =>
      if FailDelivery(db, r, terminal, actor) != db {
        FinalizeSettles(db.(recipients := db.recipients[r := Moved(db.recipients[r], Failed)]), actor);
      }
    case SkipStep(_) =>
    case SummaryStep(actor) =>
  }

  /** A worker step never gives rows new moves, and uses one up when it changes any row. */
  lemma WorkerUsesMoves(db: Db, step: Step)
    requires ByWorker(step)
    ensures var next := Apply(db, step);
      MovesLeft(next.recipients) <= MovesLeft(db.recipients) &&
      (next.recipients != db.recipients ==> MovesLeft(next.recipients) < MovesLeft(db.recipients))
  {
    match step
    case FanoutStep => QueueRowsKeepsFlight(db.recipients);
    case DeliverStep(r, around) =>
      if Deliver(db, r, around) != db {
        CountsUpdate(db.recipients, r, Moved(db.recipients[r], Cancelled));
        CountsUpdate(db.recipients, r, Moved(db.recipients[r], Sent).(accepted := true));
      }
    case FailStep(r, terminal, actor) =>
      if FailDelivery(db, r, terminal, actor) != db {
        CountsUpdate(db.recipients, r, Moved(db.recipients[r], Failed));
      }
    case SkipStep(_) =>
    case SummaryStep(actor) =>
  }

  predicate AllByWorker(steps: seq<Step>) {
    forall i :: 0 <= i < |steps| ==> ByWorker(steps[i])
  }

  /** How many steps of the run change a row. */
  function EffectiveSteps(db: Db, steps: seq<Step>): nat {
    if steps == [] then 0
    else
      var front := steps[..|steps| - 1];
      EffectiveSteps(db, front) +
      (if Run(db, steps).recipients != Run(db, front).recipients then 1 else 0)
  }

  /** Between two requests of the organiser, only boundedly many worker steps have an effect on rows. */
  lemma {:induction false} BoundedMoves(db: Db, steps: seq<Step>)
    requires AllByWorker(steps)
    ensures EffectiveSteps(db, steps) + MovesLeft(Run(db, steps).recipients) <= MovesLeft(db.recipients)
    ensures EffectiveSteps(db, steps) <= MovesLeft(db.recipients)
  {
    CountsBounds(Run(db, steps).recipients);
    if steps != [] {
      var front := steps[..|steps| - 1];
      BoundedMoves(db, front);
      WorkerUsesMoves(Run(db, front), steps[|steps| - 1]);
    }
  }

  lemma OverIsFinal(db: Db, step: Step)
    requires ByWorker(step) && Coherent(db) && Over(db.status)
    ensures Apply(db, step) == db
  {
    CountsBounds(db.recipients);
  }

  /**
   Over every run of worker steps from a campaign being sent, the campaign is over exactly
   when nothing is in flight any more, and one settlement event has been recorded if the
   jobs had actors, none while anything is in flight.
   */
  lemma {:induction false} RunSettles(db: Db, steps: seq<Step>)
    requires Coherent(db) && Active(db.status) && InFlightCount(db.recipients) > 0 && AllByWorker(steps)
    ensures var final := Run(db, steps);
      && (Over(final.status) <==> InFlightCount(final.recipients) == 0)
      && (!Over(final.status) ==> Active(final.status) && Settlements(final.log) == Settlements(db.log))
      && (Over(final.status) ==> Settlements(final.log) <= Settlements(db.log) + 1)
      && (Over(final.status) && (forall i :: 0 <= i < |steps| ==> HasActor(steps[i])) ==>
            Settlements(final.log) == Settlements(db.log) + 1)
  {
    if steps != [] {
      var front, last := steps[..|steps| - 1], steps[|steps| - 1];
      RunSettles(db, front);
      RunCoherent(db, front);
      CountsBounds(Run(db, front).recipients);
      if Over(Run(db, front).status) {
        OverIsFinal(Run(db, front), last);
      } else {
        SettledAtOnce(Run(db, front), last);
      }
    }
  }

  // ---------------------------------------------------------------------------
  // Where one delivery job leaves its recipient

  /** No step of the worker or the organiser changes a row that is done, and none removes a row. */
  lemma DoneStays(db: Db, step: Step, r: nat)
    requires r < |db.recipients|
    ensures r < |Apply(db, step).recipients|
    ensures Done(db.recipients[r]) ==> Apply(db, step).recipients[r] == db.recipients[r]
  {
  }

  lemma {:induction false} DoneStaysThrough(db: Db, steps: seq<Step>, r: nat)
    requires r < |db.recipients|
    ensures r < |Run(db, steps).recipients|
    ensures Done(db.recipients[r]) ==> Run(db, steps).recipients[r] == db.recipients[r]
  {
    if steps != [] {
      DoneStaysThrough(db, steps[..|steps| - 1], r);
      DoneStays(Run(db, steps[..|steps| - 1]), steps[|steps| - 1], r);
    }
  }

  /** The state a recipient in flight ends in, by what the job found and whether its mail was accepted. */
  function JobEnd(prepared: Preparation, status: CampaignStatus, around: Surroundings): RecipientStatus {
    if !prepared.Ready? || !Active(status) || !around.published then Failed
    else if around.reminder && !around.stillInvited then Cancelled
    else if around.sameAddress && around.accepted then Sent
    else Failed
  }

  /** What the later transactions do to the rows, for any answer of the first and whatever they meet. */
  lemma FinishedJob(prepared: Preparation, db: Db, later: Db, r: nat, around: Surroundings, actor: bool)
    requires r < |db.recipients| && r < |later.recipients|
    ensures var rows, met := FinishJob(prepared, db, later, r, around, actor).recipients, Met(prepared, db, later, r, around);
      && |rows| == |met.recipients|
      && (forall i :: 0 <= i < |rows| && i != r ==> rows[i] == met.recipients[i])
      && rows[r].status == (if prepared.Skip? || !InFlight(met.recipients[r]) then met.recipients[r].status
                            else if prepared.Ready? && !Delivers(db, r, around) then Failed
                            else JobEnd(prepared, db.status, around))
  {
  }

  /**
   Whatever steps run between its transactions, also between a delivery that threw and the record
   of its failure, a finished job leaves its recipient out of flight: a recipient that its last
   transaction finds in flight goes where the findings of the job call for, and every other
   row stays as that transaction found it.
   */
  lemma JobOutcome(before: Db, steps: seq<Step>, more: seq<Step>, r: nat, open: bool, around: Surroundings, actor: bool)
    requires r < |before.recipients|
    ensures r < |Run(before, steps).recipients| && r < |Run(Run(before, steps), more).recipients|
    ensures var prepared, db := Prepare(before, r, open), Run(before, steps);
      var later := Run(db, more);
      var rows, met := FinishJob(prepared, db, later, r, around, actor).recipients, Met(prepared, db, later, r, around);
      && |rows| == |met.recipients| && !InFlight(rows[r])
      && (forall i :: 0 <= i < |rows| && i != r ==> rows[i] == met.recipients[i])
      && rows[r].status == (if !InFlight(met.recipients[r]) then met.recipients[r].status
                            else if prepared.Ready? && !Delivers(db, r, around) then Failed
                            else JobEnd(prepared, db.status, around))
  {
    var db := Run(before, steps);
    DoneStaysThrough(before, steps, r);
    DoneStaysThrough(db, more, r);
    FinishedJob(Prepare(before, r, open), db, Run(db, more), r, around, actor);
  }

  // ---------------------------------------------------------------------------
  // One settlement per request

  function Requests(log: seq<Event>): int {
    Sum(log, (e: Event) => if e.SendRequested? then 1 else 0)
  }

  lemma RequestsOneMore(log: seq<Event>, e: Event)
    ensures Requests(log + [e]) == Requests(log) + (if e.SendRequested? then 1 else 0)
  {
    assert (log + [e])[..|log|] == log;
  }

  lemma {:induction false} DeliveriesRequestNothing(log: seq<Event>, rs: seq<Recipient>)
    ensures Requests(log + DeliveryRequests(rs)) == Requests(log)
  {
    if rs == [] {
      assert log + [] == log;
    } else {
      var i := |rs| - 1;
      DeliveriesRequestNothing(log, rs[..i]);
      if rs[i].status.Pending? {
        var e := DeliveryRequested(i, rs[i].version + 1);
        RequestsOneMore(log + DeliveryRequests(rs[..i]), e);
        assert log + DeliveryRequests(rs) == log + DeliveryRequests(rs[..i]) + [e];
      } else {
        assert DeliveryRequests(rs) == DeliveryRequests(rs[..i]);
      }
    }
  }

  /** Every settlement answers a request of its own, and a campaign being sent has one unanswered. */
  ghost predicate Answered(db: Db) {
    Settlements(db.log) + (if Active(db.status) || db.status.Scheduled? then 1 else 0) <= Requests(db.log)
  }

  lemma FinalizeAnswered(db: Db, actor: bool)
    requires Answered(db)
    ensures Answered(Finalize(db, actor))
  {
    var settled := CampaignSettled(FailedCount(db.recipients), db.version + 1);
    SettlementsOneMore(db.log, settled);
    RequestsOneMore(db.log, settled);
    assert db.log + [] == db.log;
  }

  lemma StepAnswered(db: Db, step: Step)
    requires Answered(db)
    ensures Answered(Apply(db, step))
  {
    SettlementsOneMore(db.log, SendRequested);
    RequestsOneMore(db.log, SendRequested);
    match step
    case FanoutStep =>
      RequestsSettleNothing(db.log, db.recipients);
      DeliveriesRequestNothing(db.log, db.recipients);
    case DeliverStep(r, around) =>
      if Deliver(db, r, around) != db {
        var row := db.recipients[r];
        SettlementsOneMore(db.log, EmailSent(r));
        RequestsOneMore(db.log, EmailSent(r));
        FinalizeAnswered(db.(recipients := db.recipients[r := Moved(row, Cancelled)]), true);
        FinalizeAnswered(db.(recipients := db.recipients[r := Moved(row, Sent).(accepted := true)],
                             log := db.log + [EmailSent(r)]), true);
      }
    case FailStep(r, terminal, actor) =>
      if FailDelivery(db, r, terminal, actor) != db {
        FinalizeAnswered(db.(recipients := db.recipients[r := Moved(db.recipients[r], Failed)]), actor);
      }
    case SkipStep(_) => FinalizeAnswered(db, true);
    case SummaryStep(actor) => FinalizeAnswered(db, actor);
    case _ =>
  }

  /** Over every run there are at most as many settlement events as send requests. */
  lemma {:induction false} RunAnswered(steps: seq<Step>)
    ensures Answered(Run(NewCampaign, steps))
    ensures Settlements(Run(NewCampaign, steps).log) <= Requests(Run(NewCampaign, steps).log)
  {
    if steps != [] {
      RunAnswered(steps[..|steps| - 1]);
      StepAnswered(Run(NewCampaign, steps[..|steps| - 1]), steps[|steps| - 1]);
    }
  }

  // ---------------------------------------------------------------------------
  // Outbox keys are never reused

  /** The deduplication keys of two events: the campaign or row, and its version, at the time. */
  predicate SameKey(a: Event, b: Event) {
    || (a.DeliveryRequested? && b.DeliveryRequested? && a.recipient == b.recipient && a.version == b.version)
    || (a.CampaignSettled? && b.CampaignSettled? && a.version == b.version)
  }

  predicate KeysUnique(log: seq<Event>) {
    forall i, j :: 0 <= i < j < |log| ==> !SameKey(log[i], log[j])
  }

  /** An event's version is one that its row or campaign has reached. */
  predicate VersionReached(db: Db, e: Event) {
    match e
    case DeliveryRequested(r, v) => r < |db.recipients| && v <= db.recipients[r].version
    case CampaignSettled(_, v) => v <= db.version
    case _ => true
  }

  ghost predicate FreshKeys(db: Db) {
    KeysUnique(db.log) && forall i :: 0 <= i < |db.log| ==> VersionReached(db, db.log[i])
  }

  /** Nothing goes back to an earlier version. */
  ghost predicate VersionsGrow(db: Db, next: Db) {
    && db.version <= next.version && |db.recipients| <= |next.recipients|
    && forall r :: 0 <= r < |db.recipients| ==> db.recipients[r].version <= next.recipients[r].version
  }

  lemma GrownStaysFresh(db: Db, next: Db)
    requires FreshKeys(db) && VersionsGrow(db, next)
    ensures FreshKeys(next.(log := db.log))
  {
  }

  lemma OneMoreKey(db: Db, e: Event)
    requires FreshKeys(db) && VersionReached(db, e)
    requires forall i :: 0 <= i < |db.log| ==> !SameKey(db.log[i], e)
    ensures FreshKeys(db.(log := db.log + [e]))
  {
  }

  lemma FinalizeFresh(db: Db, actor: bool)
    requires FreshKeys(db)
    ensures FreshKeys(Finalize(db, actor))
  {
    var next := Finalize(db, actor);
    if next != db {
      GrownStaysFresh(db, next);
      if actor {
        OneMoreKey(next.(log := db.log), CampaignSettled(FailedCount(db.recipients), next.version));
      } else {
        assert db.log + [] == db.log;
      }
    }
  }

  lemma {:induction false} DeliveryRequestsAt(rs: seq<Recipient>)
    ensures forall k :: 0 <= k < |DeliveryRequests(rs)| ==>
      var e := DeliveryRequests(rs)[k];
      e.DeliveryRequested? && e.recipient < |rs| && e.version == rs[e.recipient].version + 1 &&
      rs[e.recipient].status.Pending?
    ensures KeysUnique(DeliveryRequests(rs))
  {
    if rs != [] {
      DeliveryRequestsAt(rs[..|rs| - 1]);
    }
  }

  lemma FanoutFresh(db: Db)
    requires FreshKeys(db)
    ensures FreshKeys(Fanout(db))
  {
    var next := Fanout(db);
    if next != db {
      DeliveryRequestsAt(db.recipients);
      GrownStaysFresh(db, next);
      var more := DeliveryRequests(db.recipients);
      forall i, j | 0 <= i < j < |next.log| ensures !SameKey(next.log[i], next.log[j]) {
        if i < |db.log| && j >= |db.log| {
          assert VersionReached(db, db.log[i]);
          assert next.log[j] == more[j - |db.log|];
        } else if i >= |db.log| {
          assert next.log[i] == more[i - |db.log|] && next.log[j] == more[j - |db.log|];
        }
      }
    }
  }

  lemma StepFresh(db: Db, step: Step)
    requires FreshKeys(db)
    ensures FreshKeys(Apply(db, step))
  {
    var next := Apply(db, step);
    match step
    case FanoutStep => FanoutFresh(db);
    case DeliverStep(r, around) =>
      if Deliver(db, r, around) != db {
        var row := db.recipients[r];
        var cancelled := db.(recipients := db.recipients[r := Moved(row, Cancelled)]);
        var sent := db.(recipients := db.recipients[r := Moved(row, Sent).(accepted := true)]);
        GrownStaysFresh(db, cancelled);
        GrownStaysFresh(db, sent);
        OneMoreKey(sent, EmailSent(r));
        FinalizeFresh(cancelled, true);
        FinalizeFresh(sent.(log := db.log + [EmailSent(r)]), true);
      }
    case FailStep(r, terminal, actor) =>
      if FailDelivery(db, r, terminal, actor) != db {
        var failed := db.(recipients := db.recipients[r := Moved(db.recipients[r], Failed)]);
        GrownStaysFresh(db, failed);
        FinalizeFresh(failed, actor);
      }
    case SkipStep(_) => FinalizeFresh(db, true);
    case SummaryStep(actor) => FinalizeFresh(db, actor);
    case _ =>
      GrownStaysFresh(db, next);
      if next.log != db.log {
        OneMoreKey(next.(log := db.log), SendRequested);
      }
  }

  /** Over every run no two delivery requests and no two settlements share a deduplication key. */
  lemma {:induction false} RunFresh(steps: seq<Step>)
    ensures FreshKeys(Run(NewCampaign, steps)) && KeysUnique(Run(NewCampaign, steps).log)
  {
    if steps != [] {
      RunFresh(steps[..|steps| - 1]);
      StepFresh(Run(NewCampaign, steps[..|steps| - 1]), steps[|steps| - 1]);
    }
  }
}

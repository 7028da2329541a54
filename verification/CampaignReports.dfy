/** Reports of the mail provider among the worker's and the organiser's transactions. */
module CampaignReports {
  import opened Ordering
  import opened Campaign
  import opened CampaignProperties

  // ---------------------------------------------------------------------------
  // Reports of the mail provider

  datatype Report = ReportsDelivered | ReportsOpened | ReportsFailed

  function Reported(r: Recipient, report: Report): Recipient {
    match report
    case ReportsOpened => Moved(r, Opened)
    case ReportsDelivered => Moved(r, if r.status.Opened? || r.status.Failed? then r.status else Delivered)
    case ReportsFailed => Moved(r, if r.status.Delivered? || r.status.Opened? then r.status else Failed)
  }

  /** A webhook event that is not a repetition; it finds the row by the provider's message id. */
  function Webhook(db: Db, r: nat, report: Report): Db {
    if r >= |db.recipients| || !db.recipients[r].accepted then db
    else
      var row := Reported(db.recipients[r], report);
      var failing := row.status.Failed? && !db.recipients[r].status.Failed?;
      var demoted := report.ReportsFailed? && (Active(db.status) || db.status.Completed?);
      Db(if demoted then Partial else db.status,
         if demoted then db.version + 1 else db.version,
         db.recipients[r := row],
         if failing then db.log + [ProviderFailure(r)] else db.log)
  }

  /**
   When a report leaves a coherent campaign coherent. A failure report ends a campaign that
   is still being sent, so it must concern the last recipient in flight, if any, and leave
   somebody failed; it turns a completed campaign partial, so the recipient must not count
   as delivered; and an opened message must not have been the only failure.
   */
  predicate ReportFits(db: Db, r: nat, report: Report)
    requires r < |db.recipients|
  {
    var row := db.recipients[r];
    match report
    case ReportsDelivered => true
    case ReportsOpened => !(db.status.Partial? && row.status.Failed? && FailedCount(db.recipients) == 1)
    case ReportsFailed =>
      var kept := row.status.Delivered? || row.status.Opened?;
      if Active(db.status) then
        InFlightCount(db.recipients) == (if InFlight(row) then 1 else 0) &&
        (kept ==> FailedCount(db.recipients) > 0)
      else db.status.Completed? ==> !kept
  }

  /** Provider reports bypass settlement; they keep a campaign coherent exactly when they fit it. */
  lemma WebhookCoherentExactly(db: Db, r: nat, report: Report)
    requires Coherent(db) && r < |db.recipients| && db.recipients[r].accepted
    ensures Coherent(Webhook(db, r, report)) <==> ReportFits(db, r, report)
  {
    CountsBounds(db.recipients);
    CountsUpdate(db.recipients, r, Reported(db.recipients[r], report));
    CountsBounds(Webhook(db, r, report).recipients);
  }

  /** Steps of our own and reports of the provider, in any order. */
  datatype Happening = Own(step: Step) | Heard(recipient: nat, report: Report)

  function Happen(db: Db, h: Happening): Db {
    match h
    case Own(step) => Apply(db, step)
    case Heard(r, report) => Webhook(db, r, report)
  }

  function History(db: Db, hs: seq<Happening>): Db {
    if hs == [] then db else Happen(History(db, hs[..|hs| - 1]), hs[|hs| - 1])
  }

  // ---------------------------------------------------------------------------
  // Waiting for nobody

  /** Being sent with nothing left to send, and so waiting for nobody. */
  predicate Stalled(db: Db) {
    Active(db.status) && InFlightCount(db.recipients) == 0
  }

  /**
   A scheduled campaign with nobody in flight is fanned out, or the last recipient in flight is
   reported as delivered or opened, on account of a message that an earlier attempt had sent.
   */
  predicate Stalls(db: Db, h: Happening) {
    match h
    case Own(step) => step.FanoutStep? && db.status.Scheduled? && InFlightCount(db.recipients) == 0
    case Heard(r, report) =>
      && r < |db.recipients| && db.recipients[r].accepted && InFlight(db.recipients[r])
      && Active(db.status) && InFlightCount(db.recipients) == 1 && !report.ReportsFailed?
  }

  lemma PendingIsInFlight(rs: seq<Recipient>)
    requires HasPending(rs)
    ensures InFlightCount(rs) > 0
  {
    CountsBounds(rs);
  }

  lemma StepStallsExactly(db: Db, step: Step)
    requires !Stalled(db)
    ensures Stalled(Apply(db, step)) <==> Stalls(db, Own(step))
  {
    match step
    case FanoutStep => QueueRowsKeepsFlight(db.recipients);
    case RequestSendStep(added, chosen, later) =>
      if RequestSend(db, added, chosen, later) != db {
        PendingIsInFlight(RequestSend(db, added, chosen, later).recipients);
      }
    case RetryFailedStep =>
      if RetryFailed(db) != db {
        PendingIsInFlight(RetryFailed(db).recipients);
      }
    case _ =>
  }

  lemma ReportStallsExactly(db: Db, r: nat, report: Report)
    requires !Stalled(db)
    ensures Stalled(Webhook(db, r, report)) <==> Stalls(db, Heard(r, report))
  {
    if r < |db.recipients| {
      CountsUpdate(db.recipients, r, Reported(db.recipients[r], report));
    }
  }

  /** A campaign comes to wait for nobody exactly in these two ways. */
  lemma StallsExactly(db: Db, h: Happening)
    requires !Stalled(db)
    ensures Stalled(Happen(db, h)) <==> Stalls(db, h)
  {
    match h
    case Own(step) => StepStallsExactly(db, step);
    case Heard(r, report) => ReportStallsExactly(db, r, report);
  }

  /**
   The wait is ended by a delivery that has found its recipient done, by the summary job, by a
   cancellation, or by a failure reported for an accepted message.
   */
  predicate EndsStall(db: Db, h: Happening) {
    match h
    case Own(step) =>
      || step.SummaryStep? || step.CancelStep?
      || (step.SkipStep? && step.recipient < |db.recipients| && OnceDone(db.recipients[step.recipient]))
    case Heard(r, report) => r < |db.recipients| && db.recipients[r].accepted && report.ReportsFailed?
  }

  lemma StallEndsExactly(db: Db, h: Happening)
    requires Stalled(db)
    ensures !Stalled(Happen(db, h)) <==> EndsStall(db, h)
  {
    CountsBounds(db.recipients);
    match h
    case Own(step) => QueueRowsKeepsFlight(db.recipients);
    case Heard(r, report) =>
      if r < |db.recipients| {
        CountsUpdate(db.recipients, r, Reported(db.recipients[r], report));
      }
  }

  /** The summary job ends a stall by settling the campaign. */
  lemma SummaryEndsStall(db: Db, actor: bool)
    requires Stalled(db)
    ensures Over(Apply(db, SummaryStep(actor)).status)
  {
  }

  /** A delivery job that runs without interruption settles a stalled campaign exactly when its recipient is done. */
  lemma JobEndsStallExactly(db: Db, r: nat, open: bool, around: Surroundings, actor: bool)
    requires Stalled(db)
    ensures var next := FinishJob(Prepare(db, r, open), db, db, r, around, actor);
      && (Over(next.status) <==> r < |db.recipients| && Done(db.recipients[r]))
      && (Stalled(next) <==> !Over(next.status))
  {
    CountsBounds(db.recipients);
  }

  // ---------------------------------------------------------------------------
  // Recipients that have been found done

  lemma OnceDoneStays(db: Db, h: Happening, r: nat)
    requires r < |db.recipients| && OnceDone(db.recipients[r])
    ensures r < |Happen(db, h).recipients| && OnceDone(Happen(db, h).recipients[r])
  {
  }

  lemma NewlyOnceDone(db: Db, h: Happening, r: nat)
    requires r < |db.recipients| ==> !OnceDone(db.recipients[r])
    ensures r < |Happen(db, h).recipients| && OnceDone(Happen(db, h).recipients[r]) ==> Done(Happen(db, h).recipients[r])
  {
  }

  ghost predicate DoneAt(hs: seq<Happening>, k: nat, r: nat)
    requires k <= |hs|
  {
    var db := History(NewCampaign, hs[..k]);
    r < |db.recipients| && Done(db.recipients[r])
  }

  /** Exactly the recipients that were done at some time in the history can have been skipped by a delivery. */
  lemma {:induction false} OnceDoneExactly(hs: seq<Happening>, r: nat)
    ensures var db := History(NewCampaign, hs);
      r < |db.recipients| && OnceDone(db.recipients[r]) <==> exists k :: 0 <= k <= |hs| && DoneAt(hs, k, r)
  {
    assert hs[..|hs|] == hs;
    if hs != [] {
      var front := hs[..|hs| - 1];
      var before := History(NewCampaign, front);
      OnceDoneExactly(front, r);
      assert forall k :: 0 <= k <= |front| ==> hs[..k] == front[..k];
      assert forall k :: 0 <= k <= |front| ==> (DoneAt(hs, k, r) <==> DoneAt(front, k, r));
      if r < |before.recipients| && OnceDone(before.recipients[r]) {
        OnceDoneStays(before, hs[|hs| - 1], r);
      } else {
        NewlyOnceDone(before, hs[|hs| - 1], r);
        if DoneAt(hs, |hs|, r) {
          assert exists k :: 0 <= k <= |hs| && DoneAt(hs, k, r);
        }
      }
    }
  }

  // ---------------------------------------------------------------------------
  // Histories that go wrong

  /** What is left to check of a campaign with one recipient. */
  predicate Lone(db: Db, status: CampaignStatus, recipient: RecipientStatus, accepted: bool) {
    db.status == status && |db.recipients| == 1
    && db.recipients[0].status == recipient && db.recipients[0].accepted == accepted
  }

  lemma HistorySnoc(hs: seq<Happening>, h: Happening)
    ensures History(NewCampaign, hs + [h]) == Happen(History(NewCampaign, hs), h)
  {
    assert (hs + [h])[..|hs|] == hs;
  }

  lemma LoneCounts(db: Db, status: CampaignStatus, recipient: RecipientStatus, accepted: bool)
    requires Lone(db, status, recipient, accepted)
    ensures InFlightCount(db.recipients) == if recipient.Pending? || recipient.Queued? then 1 else 0
    ensures FailedCount(db.recipients) == if recipient.Failed? then 1 else 0
  {
    var row := db.recipients[0];
    assert db.recipients == [row];
    SumOne(row, (x: Recipient) => if InFlight(x) then 1 else 0);
    SumOne(row, (x: Recipient) => if x.status.Failed? then 1 else 0);
  }

  /** A single recipient is added, and its message queued. */
  function Queueing(): seq<Happening> {
    [] + [Own(RequestSendStep(1, {}, false))] + [Own(FanoutStep)]
  }

  lemma QueuedAlone()
    ensures Lone(History(NewCampaign, Queueing()), Sending, Queued, false)
  {
    var request := Own(RequestSendStep(1, {}, false));
    HistorySnoc([], request);
    assert ([] + NewRows(1))[0].status.Pending?;
    HistorySnoc([] + [request], Own(FanoutStep));
  }

  lemma TerminalFailure(db: Db, status: CampaignStatus, recipient: RecipientStatus)
    requires Lone(db, status, recipient, false) && (recipient.Pending? || recipient.Queued?)
    ensures Lone(FailDelivery(db, 0, true, true), if Active(status) then Partial else status, Failed, false)
  {
    var next := db.(recipients := db.recipients[0 := Moved(db.recipients[0], Failed)]);
    LoneCounts(next, status, Failed, false);
  }

  lemma Rescheduled(db: Db)
    requires Lone(db, Partial, Failed, false)
    ensures Lone(RequestSend(db, 0, {0}, true), Scheduled, Pending, false)
  {
    assert (RearmRows(db.recipients, {0}) + NewRows(0))[0].status.Pending?;
  }

  function Rescheduling(): seq<Happening> {
    Queueing() + [Own(FailStep(0, true, true))] + [Own(RequestSendStep(0, {0}, true))]
  }

  lemma RescheduledAlone()
    ensures Lone(History(NewCampaign, Rescheduling()), Scheduled, Pending, false)
  {
    var failed := Queueing() + [Own(FailStep(0, true, true))];
    QueuedAlone();
    HistorySnoc(Queueing(), Own(FailStep(0, true, true)));
    TerminalFailure(History(NewCampaign, Queueing()), Sending, Queued);
    HistorySnoc(failed, Own(RequestSendStep(0, {0}, true)));
    Rescheduled(History(NewCampaign, failed));
  }

  function StallByFanout(): seq<Happening> {
    Rescheduling() + [Own(FailStep(0, true, true))] + [Own(FanoutStep)]
  }

  /**
   Stalls do occur: one recipient fails, sending to it is scheduled again, and a late
   failure of the first delivery is recorded before the scheduled fan-out runs.
   */
  lemma StallHappens()
    ensures Stalled(History(NewCampaign, StallByFanout()))
    ensures Lone(History(NewCampaign, StallByFanout()), Sending, Failed, false)
  {
    var late := Rescheduling() + [Own(FailStep(0, true, true))];
    RescheduledAlone();
    HistorySnoc(Rescheduling(), Own(FailStep(0, true, true)));
    TerminalFailure(History(NewCampaign, Rescheduling()), Scheduled, Pending);
    HistorySnoc(late, Own(FanoutStep));
    LoneCounts(History(NewCampaign, late), Scheduled, Failed, false);
    StallsExactly(History(NewCampaign, late), Own(FanoutStep));
  }

  /** No delivery and no report ends that stall: it takes the organiser to cancel, or the summary job. */
  lemma StallNeedsOrganiser(h: Happening)
    ensures var db := History(NewCampaign, StallByFanout());
      Stalled(Happen(db, h)) <==> h != Own(CancelStep) && !(h.Own? && h.step.SummaryStep?)
  {
    StallHappens();
    StallEndsExactly(History(NewCampaign, StallByFanout()), h);
  }

  /** Published, addressed as confirmed, and accepted by the provider. */
  const AllClear := Surroundings(true, false, true, true, true)

  lemma DeliveredAlone(db: Db)
    requires Lone(db, Sending, Queued, false)
    ensures Lone(Deliver(db, 0, AllClear), Completed, Sent, true)
  {
    var row := Moved(db.recipients[0], Sent).(accepted := true);
    LoneCounts(db.(recipients := db.recipients[0 := row]), Sending, Sent, true);
  }

  function Completing(): seq<Happening> {
    Queueing() + [Own(DeliverStep(0, AllClear))]
  }

  lemma CompletedAlone()
    ensures Lone(History(NewCampaign, Completing()), Completed, Sent, true)
  {
    QueuedAlone();
    HistorySnoc(Queueing(), Own(DeliverStep(0, AllClear)));
    DeliveredAlone(History(NewCampaign, Queueing()));
  }

  /** The provider reports the only message as failed after all, and the organiser retries. */
  function Rearming(): seq<Happening> {
    Completing() + [Heard(0, ReportsFailed)] + [Own(RetryFailedStep)]
  }

  lemma RetriedAlone(db: Db)
    requires Lone(db, Partial, Failed, true)
    ensures Lone(RetryFailed(db), Enqueued, Pending, true)
  {
    LoneCounts(db, Partial, Failed, true);
    assert RearmAll(db.recipients)[0].status.Pending?;
  }

  lemma RearmedAlone()
    ensures Lone(History(NewCampaign, Completing() + [Heard(0, ReportsFailed)]), Partial, Failed, true)
    ensures Lone(History(NewCampaign, Rearming()), Enqueued, Pending, true)
  {
    CompletedAlone();
    HistorySnoc(Completing(), Heard(0, ReportsFailed));
    HistorySnoc(Completing() + [Heard(0, ReportsFailed)], Own(RetryFailedStep));
    RetriedAlone(History(NewCampaign, Completing() + [Heard(0, ReportsFailed)]));
  }

  function StallByReport(): seq<Happening> {
    Rearming() + [Heard(0, ReportsOpened)]
  }

  /**
   The other way: the row that is to be sent again is reported as opened on account of its first
   message, and the fan-out that follows leaves the campaign being sent to nobody.
   */
  lemma StallByReportHappens()
    ensures Stalled(History(NewCampaign, StallByReport()))
    ensures var db := History(NewCampaign, StallByReport() + [Own(FanoutStep)]);
      && Stalled(db) && db.status == Sending
      && Over(Apply(db, SkipStep(0)).status)
  {
    RearmedAlone();
    var db := History(NewCampaign, Rearming());
    LoneCounts(db, Enqueued, Pending, true);
    StallsExactly(db, Heard(0, ReportsOpened));
    HistorySnoc(Rearming(), Heard(0, ReportsOpened));
    HistorySnoc(StallByReport(), Own(FanoutStep));
    StallEndsExactly(History(NewCampaign, StallByReport()), Own(FanoutStep));
  }

  function OpenedThenFailed(): seq<Happening> {
    Completing() + [Heard(0, ReportsOpened)] + [Heard(0, ReportsFailed)]
  }

  /** Reports do break the rule that settlement keeps: a campaign is partial although nobody failed. */
  lemma PartialWithoutFailure()
    ensures var db := History(NewCampaign, OpenedThenFailed());
      db.status == Partial && FailedCount(db.recipients) == 0 && !Coherent(db)
  {
    CompletedAlone();
    HistorySnoc(Completing(), Heard(0, ReportsOpened));
    HistorySnoc(Completing() + [Heard(0, ReportsOpened)], Heard(0, ReportsFailed));
    LoneCounts(History(NewCampaign, OpenedThenFailed()), Partial, Opened, true);
  }

  /** One recipient of two is sent its message and reported as failed while the other is still queued. */
  function FailedTooEarly(): seq<Happening> {
    [] + [Own(RequestSendStep(2, {}, false))] + [Own(FanoutStep)] + [Own(DeliverStep(0, AllClear))] + [Heard(0, ReportsFailed)]
  }

  predicate Pair(db: Db, status: CampaignStatus, first: RecipientStatus, second: RecipientStatus) {
    db.status == status && |db.recipients| == 2 && db.recipients[0].status == first && db.recipients[1].status == second
  }

  lemma FirstOfPairSent(db: Db)
    requires Pair(db, Sending, Queued, Queued)
    ensures Pair(Deliver(db, 0, AllClear), Sending, Sent, Queued) && Deliver(db, 0, AllClear).recipients[0].accepted
  {
    var row := Moved(db.recipients[0], Sent).(accepted := true);
    CountsBounds(db.recipients[0 := row]);
    assert InFlight(db.recipients[0 := row][1]);
  }

  /** And a campaign counts as partial with a recipient in flight, whose delivery then fails. */
  lemma PartialWithRecipientInFlight(around: Surroundings, open: bool)
    ensures var db := History(NewCampaign, FailedTooEarly());
      && Pair(db, Partial, Failed, Queued) && !Coherent(db)
      && FinishJob(Prepare(db, 1, open), db, db, 1, around, true).recipients[1].status == RecipientStatus.Failed
  {
    var request, deliver := Own(RequestSendStep(2, {}, false)), Own(DeliverStep(0, AllClear));
    var h1 := [] + [request];
    var h2 := h1 + [Own(FanoutStep)];
    var h3 := h2 + [deliver];
    HistorySnoc([], request);
    assert ([] + NewRows(2))[0].status.Pending?;
    HistorySnoc(h1, Own(FanoutStep));
    HistorySnoc(h2, deliver);
    FirstOfPairSent(History(NewCampaign, h2));
    HistorySnoc(h3, Heard(0, ReportsFailed));
    var db := History(NewCampaign, FailedTooEarly());
    CountsBounds(db.recipients);
    assert InFlight(db.recipients[1]);
    FinishedJob(Prepare(db, 1, open), db, db, 1, around, true);
  }

  /** A history is coherent as long as every report fits the campaign that it meets. */
  ghost predicate ReportsFit(db: Db, hs: seq<Happening>) {
    hs == [] ||
    (var front, last := hs[..|hs| - 1], hs[|hs| - 1];
     ReportsFit(db, front) &&
     (last.Heard? && last.recipient < |History(db, front).recipients| && History(db, front).recipients[last.recipient].accepted ==>
        ReportFits(History(db, front), last.recipient, last.report)))
  }

  lemma {:induction false} HistoryCoherent(hs: seq<Happening>)
    requires ReportsFit(NewCampaign, hs)
    ensures Coherent(History(NewCampaign, hs))
  {
    if hs != [] {
      var front, last := hs[..|hs| - 1], hs[|hs| - 1];
      var db := History(NewCampaign, front);
      HistoryCoherent(front);
      match last
      case Own(step) => StepCoherent(db, step);
      case Heard(r, report) =>
        if r < |db.recipients| && db.recipients[r].accepted {
          WebhookCoherentExactly(db, r, report);
        }
    }
  }

  // ---------------------------------------------------------------------------
  // What reports leave intact

  lemma ReportFresh(db: Db, r: nat, report: Report)
    requires FreshKeys(db)
    ensures FreshKeys(Webhook(db, r, report))
  {
    var next := Webhook(db, r, report);
    GrownStaysFresh(db, next);
    OneMoreKey(next.(log := db.log), ProviderFailure(r));
  }

  lemma ReportAnswered(db: Db, r: nat, report: Report)
    requires Answered(db)
    ensures Answered(Webhook(db, r, report))
  {
    SettlementsOneMore(db.log, ProviderFailure(r));
    RequestsOneMore(db.log, ProviderFailure(r));
  }

  /** Outbox keys stay unique, and settlements within the send requests, with reports in any order. */
  lemma {:induction false} HistoryFreshAndAnswered(hs: seq<Happening>)
    ensures var db := History(NewCampaign, hs); FreshKeys(db) && Answered(db)
    ensures var db := History(NewCampaign, hs); KeysUnique(db.log) && Settlements(db.log) <= Requests(db.log)
  {
    if hs != [] {
      var db := History(NewCampaign, hs[..|hs| - 1]);
      HistoryFreshAndAnswered(hs[..|hs| - 1]);
      match hs[|hs| - 1]
      case Own(step) =>
        StepFresh(db, step);
        StepAnswered(db, step);
      case Heard(r, report) =>
        ReportFresh(db, r, report);
        ReportAnswered(db, r, report);
    }
  }

  // ---------------------------------------------------------------------------
  // Delivery jobs among reports

  lemma {:induction false} RowsStay(db: Db, hs: seq<Happening>, r: nat)
    requires r < |db.recipients|
    ensures r < |History(db, hs).recipients|
  {
    if hs != [] {
      RowsStay(db, hs[..|hs| - 1], r);
      var front := History(db, hs[..|hs| - 1]);
      if hs[|hs| - 1].Own? {
        DoneStays(front, hs[|hs| - 1].step, r);
      }
    }
  }

  /**
   With reports between its transactions, also between a delivery that threw and the record of its
   failure, a finished job leaves its recipient in flight exactly when it had found it done and
   the recipient has been armed again before the next transaction.
   */
  lemma JobAmongReports(before: Db, hs: seq<Happening>, more: seq<Happening>, r: nat, open: bool, around: Surroundings, actor: bool)
    requires r < |before.recipients|
    ensures r < |History(before, hs).recipients| && r < |History(History(before, hs), more).recipients|
    ensures var prepared, db := Prepare(before, r, open), History(before, hs);
      var later := History(db, more);
      var rows, met := FinishJob(prepared, db, later, r, around, actor).recipients, Met(prepared, db, later, r, around);
      && |rows| == |met.recipients|
      && (forall i :: 0 <= i < |rows| && i != r ==> rows[i] == met.recipients[i])
      && (InFlight(rows[r]) <==> Done(before.recipients[r]) && InFlight(db.recipients[r]))
  {
    var db := History(before, hs);
    RowsStay(before, hs, r);
    RowsStay(db, more, r);
    FinishedJob(Prepare(before, r, open), db, History(db, more), r, around, actor);
  }

  /** This does happen: the job skips a recipient that is then reported as failed and armed again. */
  lemma JobSkipsRearmed(later: Db, open: bool, around: Surroundings)
    ensures var before := History(NewCampaign, Completing());
      var db := Happen(Happen(before, Heard(0, ReportsFailed)), Own(RetryFailedStep));
      && |before.recipients| == 1 && Done(before.recipients[0])
      && FinishJob(Prepare(before, 0, open), db, later, 0, around, true).recipients == db.recipients
      && |db.recipients| == 1 && InFlight(db.recipients[0])
  {
    CompletedAlone();
    RearmedAlone();
    HistorySnoc(Completing(), Heard(0, ReportsFailed));
    HistorySnoc(Completing() + [Heard(0, ReportsFailed)], Own(RetryFailedStep));
  }

  // ---------------------------------------------------------------------------
  // Messages sent again

  function FailureOf(r: nat): Event -> int {
    (e: Event) => if e == ProviderFailure(r) then 1 else 0
  }

  /** How often the provider has reported the recipient as failed after all. */
  function Failures(log: seq<Event>, r: nat): int {
    Sum(log, FailureOf(r))
  }

  predicate Reached(r: Recipient) {
    r.status.Sent? || r.status.Delivered? || r.status.Opened?
  }

  /** Every message beyond the first answers a failure that the provider reported. */
  ghost predicate ResentOnlyAfterFailure(db: Db) {
    forall r: nat :: Sends(db.log, r) <=
      Failures(db.log, r) + (if r < |db.recipients| && Reached(db.recipients[r]) then 1 else 0)
  }

  lemma TallyOne(log: seq<Event>, e: Event)
    ensures forall r: nat :: Sends(log + [e], r) == Sends(log, r) + (if e == EmailSent(r) then 1 else 0)
    ensures forall r: nat :: Failures(log + [e], r) == Failures(log, r) + (if e == ProviderFailure(r) then 1 else 0)
  {
    assert (log + [e])[..|log|] == log;
  }

  lemma {:induction false} TallyRequests(log: seq<Event>, rs: seq<Recipient>)
    ensures forall r: nat :: Sends(log + DeliveryRequests(rs), r) == Sends(log, r)
    ensures forall r: nat :: Failures(log + DeliveryRequests(rs), r) == Failures(log, r)
  {
    if rs == [] {
      assert log + [] == log;
    } else {
      var i := |rs| - 1;
      TallyRequests(log, rs[..i]);
      if rs[i].status.Pending? {
        var e := DeliveryRequested(i, rs[i].version + 1);
        TallyOne(log + DeliveryRequests(rs[..i]), e);
        assert log + DeliveryRequests(rs) == log + DeliveryRequests(rs[..i]) + [e];
      } else {
        assert DeliveryRequests(rs) == DeliveryRequests(rs[..i]);
      }
    }
  }

  lemma FinalizeResends(db: Db, actor: bool)
    requires ResentOnlyAfterFailure(db)
    ensures ResentOnlyAfterFailure(Finalize(db, actor))
  {
    TallyOne(db.log, CampaignSettled(FailedCount(db.recipients), db.version + 1));
    assert db.log + [] == db.log;
  }

  lemma DeliverResends(db: Db, r: nat, around: Surroundings)
    requires ResentOnlyAfterFailure(db)
    ensures ResentOnlyAfterFailure(Deliver(db, r, around))
  {
    if Deliver(db, r, around) != db {
      var row := db.recipients[r];
      TallyOne(db.log, EmailSent(r));
      FinalizeResends(db.(recipients := db.recipients[r := Moved(row, Cancelled)]), true);
      FinalizeResends(db.(recipients := db.recipients[r := Moved(row, Sent).(accepted := true)],
                          log := db.log + [EmailSent(r)]), true);
    }
  }

  lemma OrganiserResends(db: Db, step: Step)
    requires ResentOnlyAfterFailure(db) && !ByWorker(step)
    ensures ResentOnlyAfterFailure(Apply(db, step))
  {
    TallyOne(db.log, SendRequested);
  }

  lemma StepResends(db: Db, step: Step)
    requires ResentOnlyAfterFailure(db)
    ensures ResentOnlyAfterFailure(Apply(db, step))
  {
    match step
    case FanoutStep => TallyRequests(db.log, db.recipients);
    case DeliverStep(r, around) => DeliverResends(db, r, around);
    case FailStep(r, terminal, actor) =>
      if FailDelivery(db, r, terminal, actor) != db {
        FinalizeResends(db.(recipients := db.recipients[r := Moved(db.recipients[r], Failed)]), actor);
      }
    case SkipStep(_) => FinalizeResends(db, true);
    case SummaryStep(actor) => FinalizeResends(db, actor);
    case _ => OrganiserResends(db, step);
  }

  lemma ReportResends(db: Db, r: nat, report: Report)
    requires ResentOnlyAfterFailure(db)
    ensures ResentOnlyAfterFailure(Webhook(db, r, report))
  {
    TallyOne(db.log, ProviderFailure(r));
  }

  /** Over every history, a recipient gets at most one message more than the provider reported failures. */
  lemma {:induction false} HistoryResends(hs: seq<Happening>, r: nat)
    ensures ResentOnlyAfterFailure(History(NewCampaign, hs))
    ensures Sends(History(NewCampaign, hs).log, r) <= 1 + Failures(History(NewCampaign, hs).log, r)
  {
    if hs != [] {
      var db := History(NewCampaign, hs[..|hs| - 1]);
      HistoryResends(hs[..|hs| - 1], r);
      match hs[|hs| - 1]
      case Own(step) => StepResends(db, step);
      case Heard(k, report) => ReportResends(db, k, report);
    }
  }
}

/** What each transaction of a campaign does to rows, status and events, stated row by row. */
module CampaignActions {
  import opened Ordering
  import opened Campaign
  import opened CampaignProperties
  import opened CampaignReports

  // ---------------------------------------------------------------------------
  // The counts are cardinalities

  ghost function Failing(rs: seq<Recipient>): set<nat> {
    set i: nat | i < |rs| && rs[i].status == Failed
  }

  ghost function Flying(rs: seq<Recipient>): set<nat> {
    set i: nat | i < |rs| && (rs[i].status == Pending || rs[i].status == Queued)
  }

  lemma FailedAreFailing(rs: seq<Recipient>)
    ensures FailedCount(rs) == |Failing(rs)|
  {
    var one := (r: Recipient) => if r.status.Failed? then 1 else 0;
    SumCounts(rs, one);
    assert Ones(rs, one) == Failing(rs);
  }

  lemma InFlightAreFlying(rs: seq<Recipient>)
    ensures InFlightCount(rs) == |Flying(rs)|
  {
    var one := (r: Recipient) => if InFlight(r) then 1 else 0;
    SumCounts(rs, one);
    assert Ones(rs, one) == Flying(rs);
  }

  lemma CountsAreCardinalities(rs: seq<Recipient>)
    ensures FailedCount(rs) == |Failing(rs)| && InFlightCount(rs) == |Flying(rs)|
  {
    FailedAreFailing(rs);
    InFlightAreFlying(rs);
  }

  /** A campaign being sent with nobody in flight is settled with the number of recipients that failed. */
  lemma SettledWithFailures(db: Db)
    requires (db.status == Enqueued || db.status == Sending) && Flying(db.recipients) == {}
    ensures var next := Finalize(db, true);
      && next.status == (if Failing(db.recipients) == {} then Completed else Partial)
      && next.log == db.log + [CampaignSettled(|Failing(db.recipients)|, db.version + 1)]
      && next.recipients == db.recipients && next.version == db.version + 1
  {
    CountsAreCardinalities(db.recipients);
  }

  // ---------------------------------------------------------------------------
  // Fan-out

  function AskingFor(r: nat): Event -> int {
    (e: Event) => if e.DeliveryRequested? && e.recipient == r then 1 else 0
  }

  /** How often the log asks for the delivery of a recipient. */
  function Asked(log: seq<Event>, r: nat): int {
    Sum(log, AskingFor(r))
  }

  lemma AskedOneMore(log: seq<Event>, e: Event, r: nat)
    ensures Asked(log + [e], r) == Asked(log, r) + if e.DeliveryRequested? && e.recipient == r then 1 else 0
  {
    assert (log + [e])[..|log|] == log;
  }

  lemma {:induction false} RequestsAskOnce(rs: seq<Recipient>, r: nat)
    ensures Asked(DeliveryRequests(rs), r) == if r < |rs| && rs[r].status == Pending then 1 else 0
  {
    if rs != [] {
      var i := |rs| - 1;
      RequestsAskOnce(rs[..i], r);
      if rs[i].status == Pending {
        AskedOneMore(DeliveryRequests(rs[..i]), DeliveryRequested(i, rs[i].version + 1), r);
      } else {
        assert DeliveryRequests(rs) == DeliveryRequests(rs[..i]);
      }
    }
  }

  lemma {:induction false} RequestOfPending(rs: seq<Recipient>, r: nat)
    requires r < |rs| && rs[r].status == Pending
    ensures DeliveryRequested(r, rs[r].version + 1) in DeliveryRequests(rs)
  {
    if r < |rs| - 1 {
      RequestOfPending(rs[..|rs| - 1], r);
    }
  }

  /**
   An accepted fan-out queues every pending recipient, asks for its delivery exactly once, at the
   new version of its row, and asks for no other delivery and changes no other row.
   */
  lemma FanoutAsksOnce(db: Db, r: nat)
    requires db.status == Enqueued || db.status == Sending || db.status == Scheduled
    ensures var next := Fanout(db);
      && next.status == Sending && |next.recipients| == |db.recipients| && db.log <= next.log
      && (if r < |db.recipients| && db.recipients[r].status == Pending then
            && next.recipients[r] == db.recipients[r].(status := Queued, version := db.recipients[r].version + 1)
            && Asked(next.log, r) == Asked(db.log, r) + 1
            && DeliveryRequested(r, next.recipients[r].version) in next.log[|db.log|..]
          else
            && (r < |db.recipients| ==> next.recipients[r] == db.recipients[r])
            && Asked(next.log, r) == Asked(db.log, r))
  {
    RequestsAskOnce(db.recipients, r);
    if r < |db.recipients| && db.recipients[r].status == Pending {
      RequestOfPending(db.recipients, r);
    }
    SumAppend(db.log, DeliveryRequests(db.recipients), AskingFor(r));
    assert (db.log + DeliveryRequests(db.recipients))[|db.log|..] == DeliveryRequests(db.recipients);
  }

  /** In any other state a fan-out changes nothing. */
  lemma FanoutRefused(db: Db)
    requires db.status != Enqueued && db.status != Sending && db.status != Scheduled
    ensures Fanout(db) == db
  {
  }

  /** The delivery of every queued row has been asked for at its present version. */
  ghost predicate QueuedAreAsked(db: Db) {
    forall r: nat :: r < |db.recipients| && db.recipients[r].status == Queued ==>
      DeliveryRequested(r, db.recipients[r].version) in db.log
  }

  lemma FanoutKeepsAsked(db: Db)
    requires QueuedAreAsked(db)
    ensures QueuedAreAsked(Fanout(db))
  {
    if db.status == Enqueued || db.status == Sending || db.status == Scheduled {
      var next := Fanout(db);
      forall r: nat | r < |next.recipients| && next.recipients[r].status == Queued
        ensures DeliveryRequested(r, next.recipients[r].version) in next.log
      {
        FanoutAsksOnce(db, r);
      }
    }
  }

  /** A transaction that only adds to the log and queues nobody. */
  lemma OthersKeepAsked(db: Db, next: Db)
    requires QueuedAreAsked(db) && db.log <= next.log
    requires forall r: nat :: r < |next.recipients| && next.recipients[r].status == Queued ==>
               r < |db.recipients| && next.recipients[r] == db.recipients[r]
    ensures QueuedAreAsked(next)
  {
    forall r: nat | r < |next.recipients| && next.recipients[r].status == Queued
      ensures DeliveryRequested(r, next.recipients[r].version) in next.log
    {
      assert DeliveryRequested(r, db.recipients[r].version) in db.log;
    }
  }

  lemma HappenKeepsAsked(db: Db, h: Happening)
    requires QueuedAreAsked(db)
    ensures QueuedAreAsked(Happen(db, h))
  {
    if h == Own(FanoutStep) {
      FanoutKeepsAsked(db);
    } else {
      OthersKeepAsked(db, Happen(db, h));
    }
  }

  /** Over every history no row is queued whose delivery has not been asked for. */
  lemma {:induction false} HistoryKeepsAsked(hs: seq<Happening>)
    ensures QueuedAreAsked(History(NewCampaign, hs))
  {
    if hs != [] {
      HistoryKeepsAsked(hs[..|hs| - 1]);
      HappenKeepsAsked(History(NewCampaign, hs[..|hs| - 1]), hs[|hs| - 1]);
    }
  }

  // ---------------------------------------------------------------------------
  // Delivery

  /** What must hold for the mail to go out. */
  predicate MaySend(db: Db, r: nat, around: Surroundings) {
    && (db.status == Enqueued || db.status == Sending)
    && r < |db.recipients| && (db.recipients[r].status == Pending || db.recipients[r].status == Queued)
    && around.published && (around.reminder ==> around.stillInvited) && around.sameAddress && around.accepted
  }

  lemma SendsOneMore(log: seq<Event>, e: Event, r: nat)
    ensures Sends(log + [e], r) == Sends(log, r) + if e == EmailSent(r) then 1 else 0
  {
    assert (log + [e])[..|log|] == log;
  }

  lemma FinalizeSends(db: Db, r: nat)
    ensures Sends(Finalize(db, true).log, r) == Sends(db.log, r)
  {
    SendsOneMore(db.log, CampaignSettled(FailedCount(db.recipients), db.version + 1), r);
  }

  /** A delivery sends one mail, to its recipient, exactly when it may, and never one to anybody else. */
  lemma DeliverySendsExactly(db: Db, r: nat, around: Surroundings, other: nat)
    ensures Sends(Deliver(db, r, around).log, other) ==
            Sends(db.log, other) + if other == r && MaySend(db, r, around) then 1 else 0
  {
    if r < |db.recipients| {
      var row := db.recipients[r];
      SendsOneMore(db.log, EmailSent(r), other);
      FinalizeSends(db.(recipients := db.recipients[r := Moved(row, Cancelled)]), other);
      FinalizeSends(db.(recipients := db.recipients[r := Moved(row, Sent).(accepted := true)], log := db.log + [EmailSent(r)]), other);
    }
  }

  /** The first transaction skips the recipients that are done and is ready for the others if the invitation is open and the campaign not cancelled. */
  lemma PreparedExactly(db: Db, r: nat, open: bool)
    ensures Prepare(db, r, open) == Skip <==>
            r < |db.recipients| && db.recipients[r].status in {Sent, Delivered, Opened, Unsubscribed, Cancelled}
    ensures Prepare(db, r, open) == Ready <==>
            && r < |db.recipients| && db.recipients[r].status in {Pending, Queued, Failed}
            && open && db.status != Withdrawn
  {
  }

  // ---------------------------------------------------------------------------
  // The organiser

  /** A request to send is accepted of a draft, or of a campaign that went wrong, if somebody will be pending. */
  predicate MayRequest(db: Db, added: nat, chosen: set<nat>) {
    || (db.status == Draft && (added > 0 || exists i: nat :: i < |db.recipients| && db.recipients[i].status == Pending))
    || ((db.status == Partial || db.status == Broken) &&
        (added > 0 ||
         (exists i: nat :: (
            i < |db.recipients| &&
            (db.recipients[i].status == Pending || (i in chosen && db.recipients[i].status == Failed))))))
  }

  lemma RequestedRows(db: Db, added: nat, chosen: set<nat>)
    ensures var retry := db.status == Partial || db.status == Broken;
      var rows := (if retry then RearmRows(db.recipients, chosen) else db.recipients) + NewRows(added);
      HasPending(rows) <==>
      || added > 0
      || exists i: nat :: i < |db.recipients| &&
           (db.recipients[i].status == Pending || (retry && i in chosen && db.recipients[i].status == Failed))
  {
    var retry := db.status == Partial || db.status == Broken;
    var rows := (if retry then RearmRows(db.recipients, chosen) else db.recipients) + NewRows(added);
    if added > 0 {
      assert rows[|db.recipients|].status == Pending;
    }
    forall i: nat | i < |db.recipients|
      ensures rows[i].status == Pending <==>
        db.recipients[i].status == Pending || (retry && i in chosen && db.recipients[i].status == Failed)
    {
    }
    if exists i: nat :: i < |db.recipients| &&
         (db.recipients[i].status == Pending || (retry && i in chosen && db.recipients[i].status == Failed)) {
      var i: nat :| i < |db.recipients| &&
        (db.recipients[i].status == Pending || (retry && i in chosen && db.recipients[i].status == Failed));
      assert rows[i].status == Pending;
    }
  }

  /** The new recipients are appended; of the old ones only chosen failed ones of a campaign that went wrong are armed again. */
  lemma RequestExactly(db: Db, added: nat, chosen: set<nat>, later: bool)
    ensures var next := RequestSend(db, added, chosen, later);
      if MayRequest(db, added, chosen) then
        && next.status == (if later then Scheduled else Enqueued) && next.version == db.version + 1
        && next.log == db.log + [SendRequested] && |next.recipients| == |db.recipients| + added
        && (forall i :: |db.recipients| <= i < |next.recipients| ==> next.recipients[i] == Recipient(Pending, 1, false))
        && (forall i: nat :: i < |db.recipients| ==>
              var row := db.recipients[i];
              next.recipients[i] == if row.status == Failed && i in chosen && db.status != Draft
                                    then row.(status := Pending, version := row.version + 1) else row)
      else next == db
  {
    RequestedRows(db, added, chosen);
  }

  /** A retry arms every failed recipient again, if there is one or a pending one and nobody is in flight. */
  lemma RetryExactly(db: Db)
    ensures var next := RetryFailed(db);
      if (db.status == Partial || db.status == Broken) && Flying(db.recipients) == {} && Failing(db.recipients) != {} then
        && next.status == Enqueued && next.version == db.version + 1 && next.log == db.log + [SendRequested]
        && |next.recipients| == |db.recipients|
        && (forall i: nat :: i < |db.recipients| ==>
              var row := db.recipients[i];
              next.recipients[i] == if row.status == Failed then row.(status := Pending, version := row.version + 1) else row)
      else next == db
  {
    CountsAreCardinalities(db.recipients);
    CountsBounds(db.recipients);
    var rows := RearmAll(db.recipients);
    if Failing(db.recipients) != {} {
      var i :| i in Failing(db.recipients);
      assert rows[i].status == Pending;
    }
    if HasPending(rows) && Flying(db.recipients) == {} {
      var i :| 0 <= i < |rows| && rows[i].status.Pending?;
      assert i !in Flying(db.recipients);
      assert i in Failing(db.recipients);
    }
  }

  /** Cancelling takes everybody out of flight and ends the campaign. */
  lemma CancelExactly(db: Db)
    ensures var next := Cancel(db);
      if db.status in {Enqueued, Sending, Scheduled, Paused} then
        && next.status == Withdrawn && next.version == db.version + 1 && next.log == db.log
        && |next.recipients| == |db.recipients| && Flying(next.recipients) == {}
        && (forall i: nat :: i < |db.recipients| ==>
              var row := db.recipients[i];
              next.recipients[i] == if i in Flying(db.recipients)
                                    then row.(status := Cancelled, version := row.version + 1) else row)
      else next == db
  {
  }

  lemma ArchiveExactly(db: Db)
    ensures Archive(db) == if db.status in {Completed, Partial, Broken}
                           then db.(status := Archived, version := db.version + 1) else db
  {
  }

  predicate Closed(status: CampaignStatus) {
    status == Withdrawn || status == Archived
  }

  lemma ClosedStays(db: Db, h: Happening, r: nat)
    requires Closed(db.status)
    ensures Happen(db, h).status == db.status && Sends(Happen(db, h).log, r) == Sends(db.log, r)
  {
    match h
    case Own(_) =>
    case Heard(k, _) => SendsOneMore(db.log, ProviderFailure(k), r);
  }

  /** Whatever happens to a cancelled or archived campaign, it stays so and no mail goes out. */
  lemma {:induction false} ClosedSendsNothing(db: Db, hs: seq<Happening>, r: nat)
    requires Closed(db.status)
    ensures History(db, hs).status == db.status && Sends(History(db, hs).log, r) == Sends(db.log, r)
  {
    if hs != [] {
      ClosedSendsNothing(db, hs[..|hs| - 1], r);
      ClosedStays(History(db, hs[..|hs| - 1]), hs[|hs| - 1], r);
    }
  }

  // ---------------------------------------------------------------------------
  // Provider reports

  /** A report for an accepted message raises the version of its row and moves it as its kind allows; no other row changes. */
  lemma ReportExactly(db: Db, r: nat, report: Report)
    ensures var next := Webhook(db, r, report);
      if r < |db.recipients| && db.recipients[r].accepted then
        var was, now := db.recipients[r].status, next.recipients[r].status;
        && |next.recipients| == |db.recipients|
        && (forall i :: 0 <= i < |db.recipients| && i != r ==> next.recipients[i] == db.recipients[i])
        && next.recipients[r].version == db.recipients[r].version + 1 && next.recipients[r].accepted
        && (now == Opened <==> was == Opened || report == ReportsOpened)
        && (now == Failed <==> (was == Failed && report != ReportsOpened) || (report == ReportsFailed && was != Delivered && was != Opened))
        && (now == Delivered <==> (was == Delivered && report != ReportsOpened) || (report == ReportsDelivered && was != Opened && was != Failed))
        && now in {Opened, Failed, Delivered}
        && next.status == (if report == ReportsFailed && db.status in {Enqueued, Sending, Completed} then Partial else db.status)
      else next == db
  {
  }
}

/**
 One campaign and its recipients as stored rows, and the transactions that the worker,
 the API and the mail provider run against them. Every transaction is one atomic step.
 */
module Campaign {
  import opened Ordering

  datatype RecipientStatus =
    | Pending | Queued | Sent | Delivered | Opened | Failed | Unsubscribed | Cancelled

  datatype CampaignStatus =
    | Draft | Scheduled | Enqueued | Sending | Completed | Partial | Broken | Paused | Withdrawn | Archived

  /** accepted: the mail provider has accepted a message for this row at some time. */
  datatype Recipient = Recipient(status: RecipientStatus, version: nat, accepted: bool)

  datatype Event =
    | SendRequested
    | DeliveryRequested(recipient: nat, version: nat)
    | EmailSent(recipient: nat)
    | CampaignSettled(failed: int, version: nat)
    | ProviderFailure(recipient: nat)

  datatype Db = Db(status: CampaignStatus, version: nat, recipients: seq<Recipient>, log: seq<Event>)

  // ---------------------------------------------------------------------------
  // Counting rows

  predicate InFlight(r: Recipient) {
    r.status.Pending? || r.status.Queued?
  }

  function InFlightCount(rs: seq<Recipient>): int {
    Sum(rs, (r: Recipient) => if InFlight(r) then 1 else 0)
  }

  function FailedCount(rs: seq<Recipient>): int {
    Sum(rs, (r: Recipient) => if r.status.Failed? then 1 else 0)
  }

  /** How many moves the rows can still make: two from pending, one from queued. */
  function MovesLeft(rs: seq<Recipient>): int {
    Sum(rs, (r: Recipient) => if r.status.Pending? then 2 else if r.status.Queued? then 1 else 0)
  }

  function Moved(r: Recipient, status: RecipientStatus): Recipient {
    r.(status := status, version := r.version + 1)
  }

  // ---------------------------------------------------------------------------
  // Worker transactions

  predicate Active(status: CampaignStatus) {
    status.Enqueued? || status.Sending?
  }

  predicate Over(status: CampaignStatus) {
    status.Completed? || status.Partial?
  }

  /** actor: the job that runs the transaction carries a workspace and a user. */
  function Finalize(db: Db, actor: bool): Db {
    if InFlightCount(db.recipients) != 0 || !Active(db.status) then db
    else
      var failed := FailedCount(db.recipients);
      db.(status := if failed != 0 then Partial else Completed,
          version := db.version + 1,
          log := db.log + (if actor then [CampaignSettled(failed, db.version + 1)] else []))
  }

  function QueueRow(r: Recipient): Recipient {
    if r.status.Pending? then Moved(r, Queued) else r
  }

  function QueueRows(rs: seq<Recipient>): seq<Recipient> {
    seq(|rs|, i requires 0 <= i < |rs| => QueueRow(rs[i]))
  }

  function DeliveryRequests(rs: seq<Recipient>): seq<Event> {
    if rs == [] then []
    else
      var i := |rs| - 1;
      DeliveryRequests(rs[..i]) +
      (if rs[i].status.Pending? then [DeliveryRequested(i, rs[i].version + 1)] else [])
  }

  /** Refused, and so without effect, unless the campaign is waiting to be sent. */
  function Fanout(db: Db): Db {
    if !Active(db.status) && !db.status.Scheduled? then db
    else db.(status := Sending, version := db.version + 1,
             recipients := QueueRows(db.recipients),
             log := db.log + DeliveryRequests(db.recipients))
  }

  /** Sent, reported on, unsubscribed or cancelled: the first transaction of a delivery skips the row. */
  predicate Done(r: Recipient) {
    !InFlight(r) && !r.status.Failed?
  }

  /** The row is done now, or was before the provider reported its accepted message as failed. */
  predicate OnceDone(r: Recipient) {
    r.accepted || Done(r)
  }

  /** The second transaction of a delivery that has skipped its recipient looks at the campaign only. */
  function SettleSkipped(db: Db, r: nat): Db {
    if r < |db.recipients| && OnceDone(db.recipients[r]) then Finalize(db, true) else db
  }

  datatype Preparation = Skip | Ready | Refuse

  /** The first transaction of a delivery; open stands for the invitation being available. */
  function Prepare(db: Db, r: nat, open: bool): Preparation {
    if r >= |db.recipients| then Refuse
    else match db.recipients[r].status
      case Sent | Delivered | Opened | Unsubscribed | Cancelled => Skip
      case _ => if db.status.Withdrawn? || !open then Refuse else Ready
  }

  /** What the second transaction of a delivery finds outside the two tables. */
  datatype Surroundings = Surroundings(
    published: bool, reminder: bool, stillInvited: bool, sameAddress: bool, accepted: bool)

  /** The second transaction of a delivery. */
  function Deliver(db: Db, r: nat, around: Surroundings): Db {
    if r >= |db.recipients| then db else
    var row := db.recipients[r];
    if !Active(db.status) || !InFlight(row) || !around.published then db
    else if around.reminder && !around.stillInvited then
      Finalize(db.(recipients := db.recipients[r := Moved(row, Cancelled)]), true)
    else if !around.sameAddress || !around.accepted then db
    else
      Finalize(db.(recipients := db.recipients[r := Moved(row, Sent).(accepted := true)],
                   log := db.log + [EmailSent(r)]), true)
  }

  /** The failure of a delivery; only a terminal one touches the row. */
  function FailDelivery(db: Db, r: nat, terminal: bool, actor: bool): Db {
    if r < |db.recipients| && terminal && InFlight(db.recipients[r]) then
      Finalize(db.(recipients := db.recipients[r := Moved(db.recipients[r], Failed)]), actor)
    else db
  }

  /**
   The last attempt of a delivery, given what its first transaction answered. The next transaction
   meets `db`; what the second one throws is recorded as a terminal failure in a transaction
   of its own, which meets `later`.
   */
  function FinishJob(prepared: Preparation, db: Db, later: Db, r: nat, around: Surroundings, actor: bool): Db {
    match prepared
    case Skip => Finalize(db, true)
    case Ready => if Delivers(db, r, around) then Deliver(db, r, around) else FailDelivery(later, r, true, actor)
    case Refuse => FailDelivery(db, r, true, actor)
  }

  /** What the last transaction of such a job meets. */
  function Met(prepared: Preparation, db: Db, later: Db, r: nat, around: Surroundings): Db {
    if prepared.Ready? && !Delivers(db, r, around) then later else db
  }

  /** The second transaction does not throw. */
  predicate Delivers(db: Db, r: nat, around: Surroundings) {
    && r < |db.recipients| && Active(db.status) && InFlight(db.recipients[r]) && around.published
    && ((around.reminder && !around.stillInvited) || (around.sameAddress && around.accepted))
  }

  // ---------------------------------------------------------------------------
  // API transactions

  function Rearm(r: Recipient): Recipient {
    if r.status.Failed? then Moved(r, Pending) else r
  }

  function RearmAll(rs: seq<Recipient>): seq<Recipient> {
    seq(|rs|, i requires 0 <= i < |rs| => Rearm(rs[i]))
  }

  function RearmRows(rs: seq<Recipient>, chosen: set<nat>): seq<Recipient> {
    seq(|rs|, i requires 0 <= i < |rs| => if i in chosen then Rearm(rs[i]) else rs[i])
  }

  function NewRows(n: nat): seq<Recipient> {
    seq(n, _ => Recipient(Pending, 1, false))
  }

  predicate HasPending(rs: seq<Recipient>) {
    exists i :: 0 <= i < |rs| && rs[i].status.Pending?
  }

  /** Sending or scheduling: new recipients join, chosen failed ones are tried again. */
  function RequestSend(db: Db, added: nat, chosen: set<nat>, later: bool): Db {
    var retry := db.status.Broken? || db.status.Partial?;
    var rows := (if retry then RearmRows(db.recipients, chosen) else db.recipients) + NewRows(added);
    if !(retry || db.status.Draft?) || !HasPending(rows) then db
    else Db(if later then Scheduled else Enqueued, db.version + 1, rows, db.log + [SendRequested])
  }

  function RetryFailed(db: Db): Db {
    var rows := RearmAll(db.recipients);
    if !(db.status.Broken? || db.status.Partial?) || InFlightCount(db.recipients) != 0 || !HasPending(rows) then db
    else Db(Enqueued, db.version + 1, rows, db.log + [SendRequested])
  }

  function CancelRow(r: Recipient): Recipient {
    if InFlight(r) then Moved(r, Cancelled) else r
  }

  function Cancel(db: Db): Db {
    if !(Active(db.status) || db.status.Scheduled? || db.status.Paused?) then db
    else db.(status := Withdrawn, version := db.version + 1,
             recipients := seq(|db.recipients|, i requires 0 <= i < |db.recipients| => CancelRow(db.recipients[i])))
  }

  function Archive(db: Db): Db {
    if Over(db.status) || db.status.Broken? then db.(status := Archived, version := db.version + 1) else db
  }

  // ---------------------------------------------------------------------------
  // Steps and runs

  datatype Step =
    | FanoutStep
    | DeliverStep(recipient: nat, around: Surroundings)
    | FailStep(recipient: nat, terminal: bool, actor: bool)
    | SkipStep(recipient: nat)
    | SummaryStep(actor: bool)
    | RequestSendStep(added: nat, chosen: set<nat>, later: bool)
    | RetryFailedStep
    | CancelStep
    | ArchiveStep

  /** Steps of the worker, as opposed to those an organiser asks for. */
  predicate ByWorker(step: Step) {
    step.FanoutStep? || step.DeliverStep? || step.FailStep? || step.SkipStep? || step.SummaryStep?
  }

  function Apply(db: Db, step: Step): Db {
    match step
    case FanoutStep => Fanout(db)
    case DeliverStep(r, around) => Deliver(db, r, around)
    case FailStep(r, terminal, actor) => FailDelivery(db, r, terminal, actor)
    case SkipStep(r) => SettleSkipped(db, r)
    case SummaryStep(actor) => Finalize(db, actor)
    case RequestSendStep(added, chosen, later) => RequestSend(db, added, chosen, later)
    case RetryFailedStep => RetryFailed(db)
    case CancelStep => Cancel(db)
    case ArchiveStep => Archive(db)
  }

  function Run(db: Db, steps: seq<Step>): Db {
    if steps == [] then db else Apply(Run(db, steps[..|steps| - 1]), steps[|steps| - 1])
  }

  /** A campaign as it is created. */
  const NewCampaign := Db(Draft, 1, [], [])

  // ---------------------------------------------------------------------------
  // The store

  class Store {
    var status: CampaignStatus
    var version: nat
    var recipients: seq<Recipient>
    var log: seq<Event>

    constructor ()
      ensures State() == NewCampaign
    {
      status, version, recipients, log := Draft, 1, [], [];
    }

    function State(): Db
      reads this
    {
      Db(status, version, recipients, log)
    }

    method FinalizeIfSettled(actor: bool)
      modifies this
      ensures State() == Finalize(old(State()), actor)
    {
      var pending := InFlightCount(recipients);
      if pending != 0 {
        return;
      }
      var failed := FailedCount(recipients);
      if !Active(status) {
        return;
      }
      status := if failed != 0 then Partial else Completed;
      version := version + 1;
      if actor {
        log := log + [CampaignSettled(failed, version)];
      } else {
        assert log == log + [];
      }
    }

    method ProcessFanout() returns (ok: bool)
      modifies this
      ensures State() == Fanout(old(State()))
      ensures ok == (Active(old(status)) || old(status).Scheduled?)
    {
      if !Active(status) && !status.Scheduled? {
        return false;
      }
      status, version := Sending, version + 1;
      ghost var rows, events := recipients, log;
      var i := 0;
      assert log == events + DeliveryRequests(rows[..0]);
      while i < |recipients|
        invariant 0 <= i <= |recipients| == |rows|
        invariant forall j :: 0 <= j < i ==> recipients[j] == QueueRow(rows[j])
        invariant forall j :: i <= j < |rows| ==> recipients[j] == rows[j]
        invariant log == events + DeliveryRequests(rows[..i])
        invariant status == Sending && version == old(version) + 1
      {
        assert rows[..i + 1][..i] == rows[..i];
        if recipients[i].status.Pending? {
          recipients := recipients[i := Moved(recipients[i], Queued)];
          log := log + [DeliveryRequested(i, recipients[i].version)];
        }
        i := i + 1;
      }
      assert rows[..|rows|] == rows;
      assert recipients == QueueRows(rows);
      return true;
    }

    /** The second transaction of a delivery; false where the program throws and rolls back. */
    method ProcessDelivery(r: nat, around: Surroundings) returns (ok: bool)
      modifies this
      ensures State() == Deliver(old(State()), r, around)
      ensures ok == Delivers(old(State()), r, around)
      ensures !ok ==> State() == old(State())
    {
      if r >= |recipients| || !Active(status) || !InFlight(recipients[r]) || !around.published {
        return false;
      }
      if around.reminder && !around.stillInvited {
        recipients := recipients[r := Moved(recipients[r], Cancelled)];
        FinalizeIfSettled(true);
        return true;
      }
      if !around.sameAddress || !around.accepted {
        return false;
      }
      log := log + [EmailSent(r)];
      recipients := recipients[r := Moved(recipients[r], Sent).(accepted := true)];
      FinalizeIfSettled(true);
      return true;
    }

    method FailConsumer(r: nat, terminal: bool, actor: bool)
      modifies this
      ensures State() == FailDelivery(old(State()), r, terminal, actor)
    {
      if r < |recipients| && terminal && InFlight(recipients[r]) {
        recipients := recipients[r := Moved(recipients[r], Failed)];
        FinalizeIfSettled(actor);
      }
    }
  }
}

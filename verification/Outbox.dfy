/**
  The notification outbox file and the two atomic updates a delivery worker makes on it:
  claiming the first actionable row and recording the receipt of a send.
  Instants are microseconds; a stored time keeps whole seconds only.
 */
module Outbox {
  import Text

  const SECOND := 1_000_000
  const LEASE_TIME := 300 * SECOND
  const QUIET_PERIOD := 180 * SECOND
  const RETRY_DELAY := 60 * SECOND
  const HOUR := 3600 * SECOND
  const MAX_ATTEMPTS := 3
  const CAPACITY := 2000

  /** A stored time: missing or empty, not a time, or an instant. */
  datatype Stamp = Absent | Malformed | At(t: int)

  datatype Status = Pending | RetryPending | Sending | Sent | Failed | Suppressed | ResultUnknown | Unknown(text: string)

  /** The notification types and actions that delivery distinguishes. */
  datatype Kind = RelationshipTouch | TaskCreated | DailyReport | OwnerAttention | OtherKind(text: string)
  datatype Action = NewTask | TaskDue | ManualAssignment | OtherAction(text: string)

  /** Why a row stands where it does: its `last_error` or `suppressed_reason`. */
  datatype Reason =
    | NoReason
    | LeaseExpired | InvalidRetryAt | InvalidDeliverAt | MissingTargetOrContent | ReportWindowMissed
    | ExcludedTask | PermissionDenied | StaleOwnerAttention | StaleTaskNotification | RecipientOffboarded
    | SendError(text: string)

  /** What is sent and to whom; delivery never changes it. */
  datatype Message = Message(id: string, taskId: string, direct: bool, kind: Kind, goalActionId: string,
                             action: Action, target: string, content: string, createdAt: Stamp, deliverAt: Stamp)

  /** An element of the outbox list; anything that is not a JSON object is passed over. */
  datatype Row =
    | Foreign(text: string)
    | Entry(message: Message, status: Status, leaseId: string, leaseExpires: Stamp, attempts: nat, retryAt: Stamp,
            lastError: Reason, suppressedReason: Reason)

  /** What a claim reads besides the outbox; `refused` holds the rows that the permission recheck denies. */
  datatype World = World(now: int, lease: string, excluded: set<string>, refused: set<Row>,
                         offboarded: set<string>, lastInbound: map<string, int>)

  datatype Verdict =
    | Skip
    | Close(row: Row, reason: Reason)
    | Lease(row: Row)

  datatype Claim = Nothing | Closed(item: Row, reason: Reason) | Leased(item: Row)

  /** The outcome that the channel adapter reports for a send. */
  datatype Receipt = Receipt(success: bool, error: string, now: int)

  function WholeSeconds(t: int): (r: int)
    ensures t - SECOND < r <= t
  {
    t - t % SECOND
  }

  predicate Later(s: Stamp, now: int) {
    s.At? && s.t > now
  }

  predicate OlderThan(s: Stamp, now: int, age: int) {
    s.At? && now - s.t > age
  }

  predicate Waiting(r: Row) {
    r.Entry? && (r.status.Pending? || r.status.RetryPending?)
  }

  predicate Terminal(r: Row) {
    r.Entry? && (r.status.Sent? || r.status.Failed? || r.status.Suppressed? || r.status.ResultUnknown?)
  }

  predicate MissedReport(m: Message, now: int) {
    m.kind.DailyReport? && OlderThan(m.createdAt, now, 4 * HOUR)
  }

  /** Why a message is too old to send, if it is. */
  function StaleReason(m: Message, now: int): Reason {
    if m.kind.OwnerAttention? && OlderThan(m.createdAt, now, 2 * HOUR) then StaleOwnerAttention
    else if !m.action.OtherAction? && OlderThan(m.createdAt, now, 24 * HOUR) then StaleTaskNotification
    else NoReason
  }

  predicate InConversation(m: Message, w: World) {
    var target := Text.Strip(m.target);
    && !m.kind.DailyReport?
    && target in w.lastInbound
    && w.now - w.lastInbound[target] < QUIET_PERIOD
  }

  function Fail(r: Row, error: Reason): Verdict
    requires r.Entry?
  {
    Close(r.(status := Failed, lastError := error), error)
  }

  function Suppress(r: Row, reason: Reason): Verdict
    requires r.Entry?
  {
    Close(r.(status := Suppressed, suppressedReason := reason), reason)
  }

  /** What one claim does with one row. */
  function Decide(r: Row, w: World): Verdict {
    if r.Foreign? then Skip
    else if r.status.Sending? then
      if r.leaseExpires.At? && r.leaseExpires.t <= w.now then
        Close(r.(status := ResultUnknown, lastError := LeaseExpired, retryAt := Absent), LeaseExpired)
      else Skip
    else if !Waiting(r) then Skip
    else if r.retryAt.Malformed? then Fail(r, InvalidRetryAt)
    else if Later(r.retryAt, w.now) then Skip
    else DecideDue(r, w)
  }

  function DecideDue(r: Row, w: World): Verdict
    requires r.Entry?
  {
    var m := r.message;
    if m.taskId != "" && m.taskId in w.excluded then Suppress(r, ExcludedTask)
    else if !m.direct then Skip
    else if (m.kind.RelationshipTouch? || (m.kind.TaskCreated? && m.goalActionId != "")) && r in w.refused then Suppress(r, PermissionDenied)
    else if MissedReport(m, w.now) then Fail(r.(retryAt := Absent), ReportWindowMissed)
    else if StaleReason(m, w.now) != NoReason then Suppress(r, StaleReason(m, w.now))
    else if m.deliverAt.Malformed? then Fail(r, InvalidDeliverAt)
    else if Later(m.deliverAt, w.now) then Skip
    else if Text.Blank(m.target) || Text.Blank(m.content) then Fail(r, MissingTargetOrContent)
    else if Text.Strip(m.target) in w.offboarded then Suppress(r.(retryAt := Absent), RecipientOffboarded)
    else if InConversation(m, w) then Skip
    else Lease(r.(status := Sending, leaseId := w.lease, leaseExpires := At(WholeSeconds(w.now + LEASE_TIME)),
                  attempts := r.attempts + 1, retryAt := Absent))
  }

  /** The same element as far as delivery is concerned: the same message, or the same foreign value. */
  predicate SameMessage(a: Row, b: Row) {
    if a.Entry? && b.Entry? then a.message == b.message else a == b
  }

  /** Too old to be sent: four hours for a daily report, two for a call for the owner's attention, a day for a task message. */
  predicate Outdated(m: Message, now: int) {
    && m.createdAt.At?
    && (|| (m.kind.DailyReport? && m.createdAt.t + 4 * 3600 * SECOND < now)
        || (m.kind.OwnerAttention? && m.createdAt.t + 2 * 3600 * SECOND < now)
        || ((m.action.NewTask? || m.action.TaskDue? || m.action.ManualAssignment?) && m.createdAt.t + 24 * 3600 * SECOND < now))
  }

  /** The recipient wrote less than three minutes ago; a daily report does not mind. */
  predicate RecipientIsWriting(m: Message, w: World) {
    !m.kind.DailyReport? && Text.Strip(m.target) in w.lastInbound && w.now < w.lastInbound[Text.Strip(m.target)] + 180 * SECOND
  }

  /** The permission of a proactive message is checked again at its delivery. */
  predicate Proactive(m: Message) {
    match m.kind
    case RelationshipTouch => true
    case TaskCreated => m.goalActionId != ""
    case _ => false
  }

  /**
    A row is handed out for sending only if it is a waiting direct message, due, permitted, fresh, complete, and
    addressed to an active colleague who is not in the middle of a conversation; and then it always is.
   */
  lemma LeasedExactlyWhenDeliverable(r: Row, w: World)
    ensures Decide(r, w).Lease? <==>
            && Waiting(r) && r.message.direct
            && (r.retryAt.Absent? || (r.retryAt.At? && r.retryAt.t <= w.now))
            && (r.message.deliverAt.Absent? || (r.message.deliverAt.At? && r.message.deliverAt.t <= w.now))
            && (r.message.taskId == "" || r.message.taskId !in w.excluded)
            && !(Proactive(r.message) && r in w.refused) && !Outdated(r.message, w.now)
            && Text.Strip(r.message.target) != "" && Text.Strip(r.message.content) != ""
            && Text.Strip(r.message.target) !in w.offboarded && !RecipientIsWriting(r.message, w)
  {
    if r.Entry? {
      Text.StripsToEmpty(r.message.target);
      Text.StripsToEmpty(r.message.content);
    }
  }

  /** A message that will never be sent, once its row is looked at. */
  predicate Doomed(r: Row, w: World)
    requires r.Entry?
  {
    var m := r.message;
    || (m.taskId != "" && m.taskId in w.excluded)
    || (m.direct &&
        (|| (Proactive(m) && r in w.refused) || Outdated(m, w.now) || m.deliverAt.Malformed?
         || ((m.deliverAt.Absent? || (m.deliverAt.At? && m.deliverAt.t <= w.now))
             && (Text.Strip(m.target) == "" || Text.Strip(m.content) == "" || Text.Strip(m.target) in w.offboarded))))
  }

  /** A row is closed exactly when its lease ran out, its retry time is unreadable, or it is due and doomed. */
  lemma ClosedExactlyWhenDoomed(r: Row, w: World)
    ensures Decide(r, w).Close? <==>
            || (r.Entry? && r.status.Sending? && r.leaseExpires.At? && r.leaseExpires.t <= w.now)
            || (Waiting(r) && (r.retryAt.Malformed? || (!(r.retryAt.At? && r.retryAt.t > w.now) && Doomed(r, w))))
  {
    if r.Entry? {
      Text.StripsToEmpty(r.message.target);
      Text.StripsToEmpty(r.message.content);
    }
  }

  /** The ends that count as failures; the others are suppressions. */
  predicate IsFailure(reason: Reason) {
    reason.InvalidRetryAt? || reason.InvalidDeliverAt? || reason.MissingTargetOrContent? || reason.ReportWindowMissed?
  }

  /** What a recorded reason tells about the row. */
  predicate Applies(reason: Reason, r: Row, w: World)
    requires r.Entry?
  {
    var m := r.message;
    match reason
    case LeaseExpired => r.status.Sending? && r.leaseExpires.At? && r.leaseExpires.t <= w.now
    case InvalidRetryAt => r.retryAt.Malformed?
    case InvalidDeliverAt => m.deliverAt.Malformed?
    case MissingTargetOrContent => Text.Strip(m.target) == "" || Text.Strip(m.content) == ""
    case ReportWindowMissed => m.kind.DailyReport? && Outdated(m, w.now)
    case ExcludedTask => m.taskId != "" && m.taskId in w.excluded
    case PermissionDenied => Proactive(m) && r in w.refused
    case StaleOwnerAttention => m.kind.OwnerAttention? && Outdated(m, w.now)
    case StaleTaskNotification => !m.action.OtherAction? && Outdated(m, w.now)
    case RecipientOffboarded => Text.Strip(m.target) in w.offboarded
    case _ => false
  }

  /** How a closed row ends follows from the reason, which is kept with it and is true of it. */
  lemma ClosedAsReasonSays(r: Row, w: World)
    requires Decide(r, w).Close?
    ensures var row, reason := Decide(r, w).row, Decide(r, w).reason;
            if reason.LeaseExpired? then row.status == ResultUnknown && row.lastError == reason && row.retryAt == Absent
            else if IsFailure(reason) then row.status == Failed && row.lastError == reason
            else row.status == Suppressed && row.suppressedReason == reason && row.lastError == r.lastError
    ensures r.Entry? && Applies(Decide(r, w).reason, r, w)
  {
    if r.Entry? {
      Text.StripsToEmpty(r.message.target);
      Text.StripsToEmpty(r.message.content);
    }
  }

  /** What a claim may do to a row it closes: nothing but end it. */
  ghost predicate Ended(r: Row, r': Row, now: int) {
    && r.Entry? && r'.Entry? && r'.message == r.message && r'.attempts == r.attempts && r'.leaseId == r.leaseId
    && Terminal(r') && !r'.status.Sent?
    && (if r'.status == ResultUnknown then r.status == Sending && r.leaseExpires.At? && r.leaseExpires.t <= now
        else Waiting(r))
  }

  /** What a claim does to a row it hands out. */
  ghost predicate HandedOut(r: Row, r': Row, w: World) {
    && Waiting(r) && r'.Entry? && r'.message == r.message
    && r'.status == Sending && r'.leaseId == w.lease && r'.attempts == r.attempts + 1
    && r'.leaseExpires.At? && w.now + 299 * SECOND < r'.leaseExpires.t <= w.now + 300 * SECOND
  }

  lemma DueEffect(r: Row, w: World)
    requires Waiting(r)
    ensures DecideDue(r, w).Close? ==> Ended(r, DecideDue(r, w).row, w.now)
    ensures DecideDue(r, w).Lease? ==> HandedOut(r, DecideDue(r, w).row, w)
  {
  }

  /** A claim ends a row or hands it out; only an expired lease ends in `ResultUnknown`. */
  lemma VerdictEffect(r: Row, w: World)
    ensures Decide(r, w).Close? ==> Ended(r, Decide(r, w).row, w.now)
    ensures Decide(r, w).Lease? ==> HandedOut(r, Decide(r, w).row, w)
  {
    if Waiting(r) {
      DueEffect(r, w);
    }
  }

  /** The rows that survive a write: the newest `CAPACITY` of them. */
  function Newest(rows: seq<Row>): (r: seq<Row>)
    ensures |r| == if |rows| <= 2000 then |rows| else 2000
    ensures r == rows[|rows| - |r|..]
  {
    if |rows| > CAPACITY then rows[|rows| - CAPACITY..] else rows
  }

  /** Index of the first row a claim acts on, or the length if it passes over every row. */
  function Actionable(rows: seq<Row>, w: World): (i: nat)
    ensures i <= |rows|
    ensures forall k :: 0 <= k < i ==> Decide(rows[k], w).Skip?
    ensures i < |rows| ==> !Decide(rows[i], w).Skip?
  {
    if rows == [] || !Decide(rows[0], w).Skip? then 0 else 1 + Actionable(rows[1..], w)
  }

  function ClaimOf(v: Verdict): Claim {
    match v
    case Skip => Nothing
    case Close(row, reason) => Closed(row, reason)
    case Lease(row) => Leased(row)
  }

  /** The outbox and the answer after one claim. */
  function AfterClaim(rows: seq<Row>, w: World): (seq<Row>, Claim) {
    var i := Actionable(rows, w);
    if i == |rows| then (rows, Nothing)
    else (Newest(rows[i := Decide(rows[i], w).row]), ClaimOf(Decide(rows[i], w)))
  }

  /** Index of the first row with the given id, or the length if there is none. */
  function Find(rows: seq<Row>, id: string): (i: nat)
    ensures i <= |rows|
    ensures forall k :: 0 <= k < i ==> !(rows[k].Entry? && rows[k].message.id == id)
    ensures i < |rows| ==> rows[i].Entry? && rows[i].message.id == id
  {
    if rows == [] || (rows[0].Entry? && rows[0].message.id == id) then 0 else 1 + Find(rows[1..], id)
  }

  /** Whether a receipt for lease `lease` on item `id` still counts. */
  predicate Current(rows: seq<Row>, id: string, lease: string) {
    var i := Find(rows, id);
    i < |rows| && rows[i].leaseId == lease && rows[i].status == Sending
  }

  /** A channel that names no error failed for an unknown one. */
  function ErrorOf(receipt: Receipt): Reason {
    SendError(if receipt.error == "" then "unknown" else receipt.error)
  }

  /** The row after a receipt that counts. */
  function Settled(r: Row, receipt: Receipt): Row
    requires r.Entry?
  {
    var released := r.(leaseId := "", leaseExpires := Absent);
    if receipt.success then released.(status := Sent, retryAt := Absent)
    else if r.attempts < MAX_ATTEMPTS then
      released.(status := RetryPending, lastError := ErrorOf(receipt), retryAt := At(WholeSeconds(receipt.now + RETRY_DELAY)))
    else released.(status := Failed, lastError := ErrorOf(receipt), retryAt := Absent)
  }

  function AfterFinish(rows: seq<Row>, id: string, lease: string, receipt: Receipt): seq<Row> {
    if !Current(rows, id, lease) then rows
    else var i := Find(rows, id); Newest(rows[i := Settled(rows[i], receipt)])
  }

  /** What a receipt makes of the row it is for: the lease is gone, and only a failed send of which there were fewer than three is tried again. */
  ghost predicate ReceiptRecorded(r: Row, receipt: Receipt, r': Row) {
    && r.Entry? && r'.Entry? && r'.message == r.message && r'.attempts == r.attempts
    && r'.leaseId == "" && r'.leaseExpires.Absent? && r'.suppressedReason == r.suppressedReason
    && (if receipt.success then r'.status.Sent? && r'.retryAt.Absent? && r'.lastError == r.lastError
        else
          && r'.lastError == SendError(if receipt.error == "" then "unknown" else receipt.error)
          && (if r.attempts < 3 then
                && r'.status.RetryPending? && r'.retryAt.At?
                && receipt.now + 59 * SECOND < r'.retryAt.t <= receipt.now + 60 * SECOND
              else r'.status.Failed? && r'.retryAt.Absent?))
  }

  lemma SettledIsRecorded(r: Row, receipt: Receipt)
    requires r.Entry?
    ensures ReceiptRecorded(r, receipt, Settled(r, receipt))
  {
  }

  /** The shared outbox file; every method is one atomic read-modify-write. */
  class OutboxFile {
    var rows: seq<Row>

    constructor (initial: seq<Row>)
      ensures rows == initial
    {
      rows := initial;
    }

    method ClaimNext(w: World) returns (claim: Claim)
      modifies this
      ensures (rows, claim) == AfterClaim(old(rows), w)
    {
      var i := 0;
      while i < |rows|
        invariant 0 <= i <= |rows|
        invariant rows == old(rows)
        invariant forall k :: 0 <= k < i ==> Decide(rows[k], w).Skip?
      {
        var verdict := Decide(rows[i], w);
        if !verdict.Skip? {
          ActionableUnique(rows, w, i);
          rows := Newest(rows[i := verdict.row]);
          return ClaimOf(verdict);
        }
        i := i + 1;
      }
      ActionableUnique(rows, w, i);
      return Nothing;
    }

    method Finish(claimed: Row, receipt: Receipt) returns (final: Claim)
      requires claimed.Entry?
      modifies this
      ensures rows == AfterFinish(old(rows), claimed.message.id, claimed.leaseId, receipt)
      ensures final.Nothing? <==> !Current(old(rows), claimed.message.id, claimed.leaseId)
      ensures !final.Nothing? ==>
                && final == Leased(Settled(old(rows)[Find(old(rows), claimed.message.id)], receipt))
                && ReceiptRecorded(old(rows)[Find(old(rows), claimed.message.id)], receipt, final.item)
    {
      var i := 0;
      while i < |rows|
        invariant 0 <= i <= |rows|
        invariant rows == old(rows)
        invariant forall k :: 0 <= k < i ==> !(rows[k].Entry? && rows[k].message.id == claimed.message.id)
      {
        if rows[i].Entry? && rows[i].message.id == claimed.message.id {
          assert i == Find(rows, claimed.message.id);
          if rows[i].leaseId != claimed.leaseId || rows[i].status != Sending {
            return Nothing;
          }
          var settled := Settled(rows[i], receipt);
          SettledIsRecorded(rows[i], receipt);
          rows := Newest(rows[i := settled]);
          return Leased(settled);
        }
        i := i + 1;
      }
      return Nothing;
    }
  }

  /** Within 59 seconds of a failure that counts, and of which there were fewer than three, a claim passes over the row. */
  lemma RetryWaits(r: Row, receipt: Receipt, w: World)
    requires r.Entry? && !receipt.success && r.attempts < 3 && w.now <= receipt.now + 59 * SECOND
    ensures Decide(Settled(r, receipt), w).Skip?
  {
    SettledIsRecorded(r, receipt);
  }

  /** After a row is rewritten in place, every other row of the file carries another id. */
  lemma RewrittenIsOne(rows: seq<Row>, i: nat, r: Row, k: nat)
    requires DistinctIds(rows) && i < |rows| && rows[i].Entry? && r.Entry? && rows[i].message.id == r.message.id
    requires k < |Newest(rows[i := r])|
    ensures var x := Newest(rows[i := r])[k]; x == r || x.Foreign? || x.message.id != r.message.id
  {
    var updated := rows[i := r];
    assert Newest(updated)[k] == updated[k + |updated| - |Newest(updated)|];
  }

  /** After such a failure no claim within 59 seconds does anything with the message. */
  lemma FailedSendWaits(rows: seq<Row>, id: string, lease: string, receipt: Receipt, w: World)
    requires DistinctIds(rows) && Current(rows, id, lease)
    requires !receipt.success && rows[Find(rows, id)].attempts < 3 && w.now <= receipt.now + 59 * SECOND
    ensures var claim := AfterClaim(AfterFinish(rows, id, lease, receipt), w).1;
            claim.Nothing? || claim.item.Foreign? || claim.item.message.id != id
  {
    var i, after := Find(rows, id), AfterFinish(rows, id, lease, receipt);
    RetryWaits(rows[i], receipt, w);
    SettledIsRecorded(rows[i], receipt);
    var k := Actionable(after, w);
    if k < |after| {
      VerdictEffect(after[k], w);
      RewrittenIsOne(rows, i, Settled(rows[i], receipt), k);
    }
  }

  /** From a minute after the failure on, a claim treats the row as one without a retry time. */
  lemma RetryIsDue(r: Row, receipt: Receipt, w: World)
    requires r.Entry? && !receipt.success && r.attempts < 3 && w.now >= receipt.now + 60 * SECOND
    requires var r' := Settled(r, receipt); r'.Entry? && (r' in w.refused <==> r'.(retryAt := Absent) in w.refused)
    ensures var v, plain := Decide(Settled(r, receipt), w), Decide(Settled(r, receipt).(retryAt := Absent), w);
            (v.Lease? <==> plain.Lease?) && (v.Close? <==> plain.Close?) && (v.Close? ==> v.reason == plain.reason)
            && (v.Lease? ==> v.row == plain.row)
  {
    SettledIsRecorded(r, receipt);
  }

  lemma ActionableUnique(rows: seq<Row>, w: World, i: nat)
    requires i <= |rows|
    requires forall k :: 0 <= k < i ==> Decide(rows[k], w).Skip?
    requires i < |rows| ==> !Decide(rows[i], w).Skip?
    ensures Actionable(rows, w) == i
  {
  }

  /** How many more status changes a row can make. */
  function Remaining(r: Row): nat {
    if r.Foreign? then 0
    else if Waiting(r) then if r.attempts >= MAX_ATTEMPTS then 2 else 2 * (MAX_ATTEMPTS - r.attempts)
    else if r.status == Sending then if r.attempts >= MAX_ATTEMPTS then 1 else 2 * (MAX_ATTEMPTS - r.attempts) + 1
    else 0
  }

  /** Every claim and every receipt that has an effect uses up at least one of the remaining status changes. */
  lemma EffectConsumes(r: Row, w: World, receipt: Receipt)
    ensures !Decide(r, w).Skip? ==> Remaining(Decide(r, w).row) < Remaining(r) && Decide(r, w).row.status != r.status
    ensures r.Entry? && r.status == Sending ==> Remaining(Settled(r, receipt)) < Remaining(r)
  {
    VerdictEffect(r, w);
  }

  /** What a write can do to the list: nothing but replace one row in place, then keep the newest rows. */
  ghost predicate OneRowChanged(rows: seq<Row>, rows': seq<Row>, i: nat) {
    i < |rows| && |rows| == |rows'| && forall k :: 0 <= k < |rows| && k != i ==> rows'[k] == rows[k]
  }

  /** Up to `CAPACITY` rows, a claim changes exactly the first actionable row and loses none. */
  lemma ClaimConserves(rows: seq<Row>, w: World)
    requires |rows| <= CAPACITY
    ensures AfterClaim(rows, w).1.Nothing? ==> AfterClaim(rows, w).0 == rows
    ensures !AfterClaim(rows, w).1.Nothing? ==>
              && OneRowChanged(rows, AfterClaim(rows, w).0, Actionable(rows, w))
              && SameMessage(rows[Actionable(rows, w)], AfterClaim(rows, w).0[Actionable(rows, w)])
              && AfterClaim(rows, w).1.item == AfterClaim(rows, w).0[Actionable(rows, w)]
  {
    var i := Actionable(rows, w);
    if i < |rows| {
      VerdictEffect(rows[i], w);
    }
  }

  /** So does a receipt that counts, with the row it is for. */
  lemma FinishConserves(rows: seq<Row>, id: string, lease: string, receipt: Receipt)
    requires |rows| <= CAPACITY
    ensures !Current(rows, id, lease) ==> AfterFinish(rows, id, lease, receipt) == rows
    ensures Current(rows, id, lease) ==>
              && OneRowChanged(rows, AfterFinish(rows, id, lease, receipt), Find(rows, id))
              && SameMessage(rows[Find(rows, id)], AfterFinish(rows, id, lease, receipt)[Find(rows, id)])
  {
  }

  /**
    Above the capacity a claim can lose the very row it hands out: with distinct ids that happens exactly when
    the row lies in front of the newest `CAPACITY` rows.
   */
  lemma ClaimKeepsItsRow(rows: seq<Row>, w: World)
    requires DistinctIds(rows)
    requires AfterClaim(rows, w).1.Leased?
    ensures Holds(AfterClaim(rows, w).0, AfterClaim(rows, w).1.item.message.id) <==>
            |rows| <= CAPACITY + Actionable(rows, w)
  {
    var i := Actionable(rows, w);
    var updated := rows[i := Decide(rows[i], w).row];
    var kept := Newest(updated);
    var id := Decide(rows[i], w).row.message.id;
    VerdictEffect(rows[i], w);
    if |rows| <= CAPACITY + i {
      assert kept[i - (|rows| - |kept|)] == updated[i];
    } else {
      assert rows[i].message.id == id;
      forall k | 0 <= k < |kept| ensures !(kept[k].Entry? && kept[k].message.id == id) {
        assert kept[k] == rows[k + |rows| - |kept|];
      }
    }
  }

  /** Such a file, for any row that can be handed out: in front of `CAPACITY` others the row is lost with its claim. */
  lemma ClaimLosesItsRow(r: Row, w: World) returns (rows: seq<Row>)
    requires Decide(r, w).Lease?
    ensures |rows| == CAPACITY + 1 && DistinctIds(rows)
    ensures AfterClaim(rows, w).1.Leased? && !Holds(AfterClaim(rows, w).0, AfterClaim(rows, w).1.item.message.id)
  {
    rows := [r] + seq(CAPACITY, _ => Foreign(""));
    ActionableUnique(rows, w, 0);
    ClaimKeepsItsRow(rows, w);
  }

  ghost predicate DistinctIds(rows: seq<Row>) {
    forall i, j :: 0 <= i < j < |rows| && rows[i].Entry? && rows[j].Entry? ==> rows[i].message.id != rows[j].message.id
  }

  ghost predicate Holds(rows: seq<Row>, id: string) {
    exists k :: 0 <= k < |rows| && rows[k].Entry? && rows[k].message.id == id
  }
}

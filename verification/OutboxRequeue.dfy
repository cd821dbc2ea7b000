/**
  When the outbox may queue an id again. The fixed daily reports do so from any row that has ended, or is gone; only
  from a failed one is the message never sent twice while the first send may have arrived.
 */
module OutboxRequeue {
  import opened Options
  import opened Outbox
  import opened OutboxProtocol
  import Text

  /** The status under which an id is found, if it is. */
  function FoundAs(rows: seq<Row>, id: string): Option<Status> {
    var i := Find(rows, id);
    if i < |rows| then Some(rows[i].status) else None
  }

  /** A known id is queued again exactly if it is gone, has ended without being sent, or was sent outside its window. */
  lemma QueuedAgainExactly(s: State, message: Message, offSchedule: bool)
    ensures Enabled(s, Requeueing(message, offSchedule)) <==>
              && message.id in s.ids
              && match FoundAs(s.rows, message.id)
                 case None => true
                 case Some(status) =>
                   || status.Failed? || status.Suppressed? || status.ResultUnknown? || status.Unknown?
                   || (status.Sent? && offSchedule)
  {
  }

  /** Every step of the run that queues `id` again finds it like this. */
  ghost predicate RequeuedOnlyFrom(s: State, steps: seq<Step>, id: string, allowed: iset<Option<Status>>)
    requires Feasible(s, steps)
    decreases |steps|
  {
    || steps == []
    || (&& (Renews(steps[0], id) ==> FoundAs(s.rows, id) in allowed)
        && RequeuedOnlyFrom(Apply(s, steps[0]), steps[1..], id, allowed))
  }

  /** No run that queues ids again only from these makes a careless send. */
  ghost predicate SafeToRequeue(allowed: iset<Option<Status>>) {
    forall s, steps, id :: Initial(s) && Feasible(s, steps) && RequeuedOnlyFrom(s, steps, id, allowed) ==>
      !Careless(Run(s, steps).log, id)
  }

  /** A row that failed; one that is under way is never queued again at all. */
  predicate FailedOrUnderWay(found: Option<Status>) {
    found.Some? && (found.value.Failed? || found.value.Pending? || found.value.RetryPending? || found.value.Sending?)
  }

  lemma {:induction false} FromFailed(s: State, steps: seq<Step>, id: string, allowed: iset<Option<Status>>)
    requires Feasible(s, steps) && RequeuedOnlyFrom(s, steps, id, allowed)
    requires forall found :: found in allowed ==> FailedOrUnderWay(found)
    ensures RequeuedOnlyFailed(s, steps, id)
    decreases |steps|
  {
    if steps != [] {
      if Renews(steps[0], id) {
        assert FailedOrUnderWay(FoundAs(s.rows, id));
      }
      FromFailed(Apply(s, steps[0]), steps[1..], id, allowed);
    }
  }

  /** From `s`, a run that queues `id` again only from these ends with this log. */
  ghost predicate LeadsBy(s: State, steps: seq<Step>, id: string, allowed: iset<Option<Status>>, log: seq<Event>) {
    Feasible(s, steps) && RequeuedOnlyFrom(s, steps, id, allowed) && Run(s, steps).log == log
  }

  ghost predicate Leads(s: State, id: string, allowed: iset<Option<Status>>, log: seq<Event>) {
    exists steps :: LeadsBy(s, steps, id, allowed, log)
  }

  lemma LeadsNow(s: State, id: string, allowed: iset<Option<Status>>)
    ensures Leads(s, id, allowed, s.log)
  {
    assert LeadsBy(s, [], id, allowed, s.log);
  }

  /** What can come after a step could come before it. */
  lemma LeadsBefore(s: State, step: Step, id: string, allowed: iset<Option<Status>>, log: seq<Event>)
    requires Enabled(s, step) && (Renews(step, id) ==> FoundAs(s.rows, id) in allowed)
    requires Leads(Apply(s, step), id, allowed, log)
    ensures Leads(s, id, allowed, log)
  {
    var rest :| LeadsBy(Apply(s, step), rest, id, allowed, log);
    var steps := [step] + rest;
    assert steps[1..] == rest;
    assert LeadsBy(s, steps, id, allowed, log);
  }

  // ----- One row of interest -----

  /** No claim ever does anything with this row, which carries another id. */
  ghost predicate Bystander(r: Row, id: string) {
    (r.Entry? ==> r.message.id != id) && forall w :: Decide(r, w).Skip?
  }

  /** A file in which only row `i` matters. */
  ghost predicate Among(rows: seq<Row>, i: nat, r: Row) {
    && i < |rows| <= CAPACITY && rows[i] == r && r.Entry?
    && forall k :: 0 <= k < |rows| && k != i ==> Bystander(rows[k], r.message.id)
  }

  lemma AmongOne(r: Row)
    requires r.Entry?
    ensures Among([r], 0, r)
  {
  }

  lemma AmongUpdate(rows: seq<Row>, i: nat, r: Row, r': Row)
    requires Among(rows, i, r) && r'.Entry? && r'.message.id == r.message.id
    ensures Among(rows[i := r'], i, r') && Newest(rows[i := r']) == rows[i := r']
  {
  }

  lemma AmongFound(rows: seq<Row>, i: nat, r: Row)
    requires Among(rows, i, r)
    ensures Find(rows, r.message.id) == i
  {
  }

  lemma AmongClaimed(rows: seq<Row>, i: nat, r: Row, w: World)
    requires Among(rows, i, r) && !Decide(r, w).Skip?
    ensures AfterClaim(rows, w) == (rows[i := Decide(r, w).row], ClaimOf(Decide(r, w)))
  {
    forall k | 0 <= k < i ensures Decide(rows[k], w).Skip? {
      assert Bystander(rows[k], r.message.id);
    }
    ActionableUnique(rows, w, i);
  }

  // ----- The parts of a failing run, last part first -----

  /** A store that no worker is busy with, whose row `i` alone matters. */
  ghost predicate Resting(s: State, i: nat, r: Row) {
    Among(s.rows, i, r) && s.tasks == map[] && r.message.id in s.ids
  }

  /** The row handed out, and the send logged. */
  function SentOut(s: State, i: nat, r: Row, w: World): State
    requires i < |s.rows| && r.Entry? && Decide(r, w).Lease?
  {
    s.(rows := s.rows[i := Decide(r, w).row], leases := s.leases + {w.lease}, tasks := map[0 := Task(r.message.id, w.lease, true)],
       log := s.log + [Delivered(r.message.id, w.lease)])
  }

  lemma SendsOut(s: State, i: nat, r: Row, w: World, allowed: iset<Option<Status>>, log: seq<Event>)
    requires Resting(s, i, r) && Decide(r, w).Lease? && w.lease !in s.leases
    requires Leads(SentOut(s, i, r, w), r.message.id, allowed, log)
    ensures Leads(s, r.message.id, allowed, log)
  {
    AmongClaimed(s.rows, i, r, w);
    VerdictEffect(r, w);
    var claimed := Apply(s, Claiming(0, w));
    assert claimed.tasks == map[0 := Task(r.message.id, w.lease, false)];
    assert Apply(claimed, SendingOut(0)) == SentOut(s, i, r, w);
    LeadsBefore(claimed, SendingOut(0), r.message.id, allowed, log);
    LeadsBefore(s, Claiming(0, w), r.message.id, allowed, log);
  }

  lemma SendsLast(s: State, i: nat, r: Row, w: World, allowed: iset<Option<Status>>)
    requires Resting(s, i, r) && Decide(r, w).Lease? && w.lease !in s.leases
    ensures Leads(s, r.message.id, allowed, s.log + [Delivered(r.message.id, w.lease)])
  {
    LeadsNow(SentOut(s, i, r, w), r.message.id, allowed);
    SendsOut(s, i, r, w, allowed, s.log + [Delivered(r.message.id, w.lease)]);
  }

  /** The worker stops after the send. */
  function Lost(s: State, i: nat, r: Row, w: World): State
    requires i < |s.rows| && r.Entry? && Decide(r, w).Lease?
  {
    SentOut(s, i, r, w).(tasks := map[])
  }

  lemma LosesSend(s: State, i: nat, r: Row, w: World, allowed: iset<Option<Status>>, log: seq<Event>)
    requires Resting(s, i, r) && Decide(r, w).Lease? && w.lease !in s.leases
    requires Leads(Lost(s, i, r, w), r.message.id, allowed, log)
    ensures Leads(s, r.message.id, allowed, log)
  {
    var sent := SentOut(s, i, r, w);
    assert Apply(sent, Crashing(0)) == Lost(s, i, r, w);
    LeadsBefore(sent, Crashing(0), r.message.id, allowed, log);
    SendsOut(s, i, r, w, allowed, log);
  }

  lemma LostRests(s: State, i: nat, r: Row, w: World)
    requires Resting(s, i, r) && Decide(r, w).Lease?
    ensures HandedOut(r, Decide(r, w).row, w) && Resting(Lost(s, i, r, w), i, Decide(r, w).row)
  {
    VerdictEffect(r, w);
    AmongUpdate(s.rows, i, r, Decide(r, w).row);
  }

  /** A row that has ended is queued again and sent. */
  lemma RenewsAndSends(s: State, i: nat, r: Row, off: bool, w: World, allowed: iset<Option<Status>>)
    requires Resting(s, i, r) && !Live(r) && (r.status.Sent? ==> off) && Some(r.status) in allowed
    requires Decide(Renewed(r, r.message), w).Lease? && w.lease !in s.leases
    ensures Leads(s, r.message.id, allowed, s.log + [Delivered(r.message.id, w.lease)])
  {
    var step := Requeueing(r.message, off);
    AmongFound(s.rows, i, r);
    AmongUpdate(s.rows, i, r, Renewed(r, r.message));
    SendsLast(Apply(s, step), i, Renewed(r, r.message), w, allowed);
    LeadsBefore(s, step, r.message.id, allowed, s.log + [Delivered(r.message.id, w.lease)]);
  }

  // ----- How a row that is being sent can end, and be queued and sent again -----

  lemma ReceiptEnds(s: State, i: nat, r: Row, receipt: Receipt, w: World, allowed: iset<Option<Status>>)
    requires Among(s.rows, i, r) && r.status.Sending? && r.message.id in s.ids
    requires s.tasks == map[0 := Task(r.message.id, r.leaseId, true)] && receipt.success && Some(Sent) in allowed
    requires Decide(Renewed(Settled(r, receipt), r.message), w).Lease? && w.lease !in s.leases
    ensures Leads(s, r.message.id, allowed,
                  s.log + [Receipted(r.message.id, r.leaseId, true)] + [Delivered(r.message.id, w.lease)])
  {
    var settled, step := Settled(r, receipt), Finishing(0, receipt);
    AmongFound(s.rows, i, r);
    AmongUpdate(s.rows, i, r, settled);
    assert Current(s.rows, r.message.id, r.leaseId);
    var s' := s.(rows := s.rows[i := settled], tasks := map[], log := s.log + [Receipted(r.message.id, r.leaseId, true)]);
    assert Apply(s, step) == s';
    RenewsAndSends(s', i, settled, true, w, allowed);
    LeadsBefore(s, step, r.message.id, allowed, s'.log + [Delivered(r.message.id, w.lease)]);
  }

  lemma WithdrawalEnds(s: State, i: nat, r: Row, to: Status, w: World, allowed: iset<Option<Status>>)
    requires Resting(s, i, r) && r.status.Sending? && WithdrawnTo(to) && Some(to) in allowed
    requires Decide(Renewed(r.(status := to), r.message), w).Lease? && w.lease !in s.leases
    ensures Leads(s, r.message.id, allowed, s.log + [Delivered(r.message.id, w.lease)])
  {
    var withdrawn, step := r.(status := to), Withdrawing(r.message.id, to);
    AmongFound(s.rows, i, r);
    AmongUpdate(s.rows, i, r, withdrawn);
    RenewsAndSends(Apply(s, step), i, withdrawn, false, w, allowed);
    LeadsBefore(s, step, r.message.id, allowed, s.log + [Delivered(r.message.id, w.lease)]);
  }

  /** A claim that closes the row. */
  lemma ExpiryStep(s: State, i: nat, r: Row, w: World)
    requires Resting(s, i, r) && Decide(r, w).Close? && w.lease !in s.leases
    ensures Enabled(s, Claiming(0, w))
    ensures Apply(s, Claiming(0, w)) == s.(rows := s.rows[i := Decide(r, w).row], leases := s.leases + {w.lease})
  {
    AmongClaimed(s.rows, i, r, w);
  }

  lemma ExpiryEnds(s: State, i: nat, r: Row, w1: World, ended: Row, w: World, allowed: iset<Option<Status>>)
    requires Resting(s, i, r) && Decide(r, w1) == Close(ended, LeaseExpired) && Some(ResultUnknown) in allowed
    requires w1.lease !in s.leases && w.lease !in s.leases && w.lease != w1.lease
    requires ended.Entry? && ended.message == r.message && ended.status.ResultUnknown?
    requires Decide(Renewed(ended, r.message), w).Lease?
    ensures Leads(s, r.message.id, allowed, s.log + [Delivered(r.message.id, w.lease)])
  {
    AmongUpdate(s.rows, i, r, ended);
    ExpiryStep(s, i, r, w1);
    var s' := s.(rows := s.rows[i := ended], leases := s.leases + {w1.lease});
    RenewsAndSends(s', i, ended, false, w, allowed);
    LeadsBefore(s, Claiming(0, w1), r.message.id, allowed, s.log + [Delivered(r.message.id, w.lease)]);
  }

  // ----- A failing run for every other status -----

  /** A store with nothing but a queued message. */
  function Start(m: Message): State {
    State([NewRow(m)], map[], {}, {m.id}, {}, [])
  }

  /** The message is handed out for the first time, as `r`. */
  ghost predicate FirstSent(m: Message, w: World, r: Row) {
    Decide(NewRow(m), w) == Verdict.Lease(r)
  }

  /** What that makes of its row. */
  lemma FirstHandedOut(m: Message, w: World, r: Row)
    requires FirstSent(m, w, r)
    ensures HandedOut(NewRow(m), r, w) && r.retryAt.Absent?
  {
    VerdictEffect(NewRow(m), w);
  }

  /** The worker stops in the middle of the first send. */
  function FirstLost(m: Message, r: Row, lease: string): State {
    State([r], map[], {lease}, {m.id}, {}, [Delivered(m.id, lease)])
  }

  lemma FirstIsLost(m: Message, w: World, r: Row, allowed: iset<Option<Status>>, log: seq<Event>)
    requires FirstSent(m, w, r) && Leads(FirstLost(m, r, w.lease), m.id, allowed, log)
    ensures Leads(Start(m), m.id, allowed, log)
  {
    FirstHandedOut(m, w, r);
    AmongOne(NewRow(m));
    var lost := Lost(Start(m), 0, NewRow(m), w);
    assert lost.rows == [r];
    assert lost == FirstLost(m, r, w.lease);
    LosesSend(Start(m), 0, NewRow(m), w, allowed, log);
  }

  lemma TwoEvents(a: Event, b: Event)
    ensures [a] + [b] == [a, b]
  {
  }

  lemma ThreeEvents(a: Event, b: Event, c: Event)
    ensures [a] + [b] + [c] == [a, b, c]
  {
  }

  /** The message is being sent for the first time. */
  function FirstSending(m: Message, r: Row, lease: string): State {
    State([r], map[0 := Task(m.id, lease, true)], {lease}, {m.id}, {}, [Delivered(m.id, lease)])
  }

  lemma FirstIsSending(m: Message, w: World, r: Row, allowed: iset<Option<Status>>, log: seq<Event>)
    requires FirstSent(m, w, r) && Leads(FirstSending(m, r, w.lease), m.id, allowed, log)
    ensures Leads(Start(m), m.id, allowed, log)
  {
    FirstHandedOut(m, w, r);
    AmongOne(NewRow(m));
    var sent := SentOut(Start(m), 0, NewRow(m), w);
    assert sent.rows == [r];
    assert sent == FirstSending(m, r, w.lease);
    SendsOut(Start(m), 0, NewRow(m), w, allowed, log);
  }

  /** Withdrawn, as `suppressed` or with an unknown result, while a worker was sending it. */
  lemma WithdrawnIsResent(m: Message, w0: World, r: Row, to: Status, w2: World, allowed: iset<Option<Status>>)
    requires FirstSent(m, w0, r) && w0.lease != w2.lease && WithdrawnTo(to) && Some(to) in allowed
    requires Decide(Renewed(r.(status := to), m), w2).Lease?
    ensures Leads(Start(m), m.id, allowed, [Delivered(m.id, w0.lease), Delivered(m.id, w2.lease)])
  {
    FirstHandedOut(m, w0, r);
    AmongOne(r);
    WithdrawalEnds(FirstLost(m, r, w0.lease), 0, r, to, w2, allowed);
    TwoEvents(Delivered(m.id, w0.lease), Delivered(m.id, w2.lease));
    FirstIsLost(m, w0, r, allowed, [Delivered(m.id, w0.lease), Delivered(m.id, w2.lease)]);
  }

  /** Ended with an unknown result, because the lease of a lost send ran out. */
  lemma ExpiredIsResent(m: Message, w0: World, r: Row, w1: World, w2: World, allowed: iset<Option<Status>>)
    requires FirstSent(m, w0, r) && w0.lease != w1.lease && w0.lease != w2.lease && w1.lease != w2.lease
    requires w1.now >= w0.now + LEASE_TIME && Some(ResultUnknown) in allowed
    requires Decide(Renewed(r.(status := ResultUnknown, lastError := LeaseExpired, retryAt := Absent), m), w2).Lease?
    ensures Leads(Start(m), m.id, allowed, [Delivered(m.id, w0.lease), Delivered(m.id, w2.lease)])
  {
    FirstHandedOut(m, w0, r);
    AmongOne(r);
    var ended := r.(status := ResultUnknown, lastError := LeaseExpired, retryAt := Absent);
    assert Decide(r, w1) == Close(ended, LeaseExpired);
    ExpiryEnds(FirstLost(m, r, w0.lease), 0, r, w1, ended, w2, allowed);
    TwoEvents(Delivered(m.id, w0.lease), Delivered(m.id, w2.lease));
    FirstIsLost(m, w0, r, allowed, [Delivered(m.id, w0.lease), Delivered(m.id, w2.lease)]);
  }

  /** Sent: the channel accepted the message, but outside the window of its report. */
  lemma SentIsResent(m: Message, w0: World, r: Row, receipt: Receipt, w2: World, allowed: iset<Option<Status>>)
    requires FirstSent(m, w0, r) && w0.lease != w2.lease && receipt.success && Some(Sent) in allowed
    requires Decide(Renewed(Settled(r, receipt), m), w2).Lease?
    ensures Leads(Start(m), m.id, allowed,
                  [Delivered(m.id, w0.lease), Receipted(m.id, w0.lease, true), Delivered(m.id, w2.lease)])
  {
    FirstHandedOut(m, w0, r);
    AmongOne(r);
    var first, receipted, second := Delivered(m.id, w0.lease), Receipted(m.id, w0.lease, true), Delivered(m.id, w2.lease);
    ReceiptEnds(FirstSending(m, r, w0.lease), 0, r, receipt, w2, allowed);
    ThreeEvents(first, receipted, second);
    FirstIsSending(m, w0, r, allowed, [first, receipted, second]);
  }

  /** Gone: a full file, of which no claim would touch another row, drops its oldest row when another message is queued. */
  lemma TrimmedIsResent(m: Message, other: Message, rest: seq<Row>, ids: set<string>, w0: World, r: Row, w2: World,
                        allowed: iset<Option<Status>>)
    requires FirstSent(m, w0, r) && w0.lease != w2.lease && None in allowed && Decide(NewRow(m), w2).Lease?
    requires |rest| == CAPACITY - 1 && (forall k :: 0 <= k < |rest| ==> Bystander(rest[k], m.id))
    requires m.id in ids && other.id !in ids && Bystander(NewRow(other), m.id)
    ensures Leads(Filled(m, rest, ids), m.id, allowed, [Delivered(m.id, w0.lease), Delivered(m.id, w2.lease)])
  {
    FirstHandedOut(m, w0, r);
    FilledRests(m, rest, ids);
    var lost := Lost(Filled(m, rest, ids), 0, NewRow(m), w0);
    assert lost.rows == [r] + rest;
    assert lost.log == [Delivered(m.id, w0.lease)];
    TwoEvents(Delivered(m.id, w0.lease), Delivered(m.id, w2.lease));
    DroppedIsResent(lost, m, other, r, rest, w2, allowed);
    LosesSend(Filled(m, rest, ids), 0, NewRow(m), w0, allowed, [Delivered(m.id, w0.lease), Delivered(m.id, w2.lease)]);
  }

  /** A full store whose oldest row is the queued message. */
  function Filled(m: Message, rest: seq<Row>, ids: set<string>): State {
    State([NewRow(m)] + rest, map[], {}, ids, {}, [])
  }

  lemma FilledRests(m: Message, rest: seq<Row>, ids: set<string>)
    requires |rest| == CAPACITY - 1 && (forall k :: 0 <= k < |rest| ==> Bystander(rest[k], m.id)) && m.id in ids
    ensures Resting(Filled(m, rest, ids), 0, NewRow(m))
  {
  }

  lemma ForeignIsInitial(m: Message, rest: seq<Row>)
    requires forall k :: 0 <= k < |rest| ==> rest[k].Foreign?
    ensures Initial(Filled(m, rest, {m.id}))
  {
    var rows := [NewRow(m)] + rest;
    assert forall k :: 0 < k < |rows| ==> rows[k] == rest[k - 1];
  }

  lemma DroppedIsResent(s: State, m: Message, other: Message, r: Row, rest: seq<Row>, w: World, allowed: iset<Option<Status>>)
    requires s.rows == [r] + rest && s.tasks == map[] && m.id in s.ids && other.id !in s.ids && w.lease !in s.leases
    requires |rest| == CAPACITY - 1 && (forall k :: 0 <= k < |rest| ==> Bystander(rest[k], m.id)) && Bystander(NewRow(other), m.id)
    requires None in allowed && Decide(NewRow(m), w).Lease?
    ensures Leads(s, m.id, allowed, s.log + [Delivered(m.id, w.lease)])
  {
    var queued, step := s.(rows := rest + [NewRow(other)], ids := s.ids + {other.id}), Requeueing(m, false);
    assert s.rows + [NewRow(other)] == [r] + (rest + [NewRow(other)]);
    assert Apply(s, Queueing(other)) == queued;
    GoneAndBack(m, queued.rows);
    var renewed := Apply(queued, step);
    SendsLast(renewed, CAPACITY - 1, NewRow(m), w, allowed);
    LeadsBefore(queued, step, m.id, allowed, s.log + [Delivered(m.id, w.lease)]);
    LeadsBefore(s, Queueing(other), m.id, allowed, s.log + [Delivered(m.id, w.lease)]);
  }

  /** An id that is gone is queued again at the end of the file. */
  lemma GoneAndBack(m: Message, rows: seq<Row>)
    requires |rows| == CAPACITY && forall k :: 0 <= k < |rows| ==> Bystander(rows[k], m.id)
    ensures Find(rows, m.id) == |rows| && Among(Requeued(rows, m), CAPACITY - 1, NewRow(m))
  {
    var kept := Newest(rows + [NewRow(m)]);
    assert kept == rows[1..] + [NewRow(m)];
    forall k | 0 <= k < CAPACITY - 1 ensures Bystander(kept[k], m.id) {
      assert kept[k] == rows[k + 1];
    }
  }

  // ----- A fixed daily report -----

  /** A direct report without a delivery time. */
  predicate PlainReport(m: Message) {
    && m.direct && m.kind.DailyReport? && m.action.OtherAction? && m.createdAt.At? && m.deliverAt.Absent?
    && !Text.Blank(m.target) && !Text.Blank(m.content)
  }

  /** Within four hours of its creation, to a colleague who is not offboarded, for a task that is not excluded. */
  predicate Timely(m: Message, w: World) {
    && PlainReport(m) && w.now <= m.createdAt.t + 4 * HOUR
    && m.taskId !in w.excluded && Text.Strip(m.target) !in w.offboarded
  }

  lemma ReportIsSent(m: Message, r: Row, w: World)
    requires Timely(m, w) && Waiting(r) && r.message == m && r.retryAt.Absent?
    ensures Decide(r, w).Lease?
  {
  }

  /** What the outside looks like at `now`, when nobody is offboarded and nothing is refused. */
  function AllClear(now: int, lease: string): World {
    World(now, lease, {}, {}, {}, map[])
  }

  const REPORT := Message("r", "d", true, DailyReport, "", OtherAction(""), "o", "t", At(0), Absent)
  const DRAFT := Message("q", "", false, DailyReport, "", OtherAction(""), "o", "t", At(0), Absent)
  const FIRST := AllClear(0, "a")
  const EXPIRY := AllClear(LEASE_TIME, "b")
  const LATER := AllClear(LEASE_TIME, "c")

  lemma ReportIsPlain()
    ensures Timely(REPORT, FIRST) && Timely(REPORT, LATER) && DRAFT.id != REPORT.id && Bystander(NewRow(DRAFT), REPORT.id)
    ensures FIRST.lease != EXPIRY.lease && FIRST.lease != LATER.lease && EXPIRY.lease != LATER.lease
  {
    assert REPORT.target[0] == 'o' && REPORT.content[0] == 't';
    assert DRAFT.id[0] != REPORT.id[0];
    assert FIRST.lease[0] != EXPIRY.lease[0] && FIRST.lease[0] != LATER.lease[0] && EXPIRY.lease[0] != LATER.lease[0];
  }

  // ----- The safe statuses -----

  /** One such run is enough. */
  lemma Refutes(s: State, id: string, allowed: iset<Option<Status>>, log: seq<Event>)
    requires Initial(s) && Leads(s, id, allowed, log) && Careless(log, id)
    ensures !SafeToRequeue(allowed)
  {
    var steps :| LeadsBy(s, steps, id, allowed, log);
  }

  lemma StartIsInitial(m: Message)
    ensures Initial(Start(m))
  {
  }

  lemma TwiceIsCareless(id: string, a: string, b: string)
    ensures Careless([Delivered(id, a), Delivered(id, b)], id)
  {
    assert CarelessAt([Delivered(id, a), Delivered(id, b)], id, 0, 1);
  }

  lemma TwiceAfterSuccessIsCareless(id: string, a: string, b: string)
    ensures Careless([Delivered(id, a), Receipted(id, a, true), Delivered(id, b)], id)
  {
    assert CarelessAt([Delivered(id, a), Receipted(id, a, true), Delivered(id, b)], id, 0, 2);
  }

  /** From every other status, and from no row at all, some run sends a daily report twice. */
  lemma OthersAreResent(m: Message, other: Message, w0: World, w1: World, w2: World, found: Option<Status>, allowed: iset<Option<Status>>)
    requires Timely(m, w0) && Timely(m, w2)
    requires w0.lease != w1.lease && w0.lease != w2.lease && w1.lease != w2.lease && w1.now >= w0.now + LEASE_TIME
    requires other.id != m.id && Bystander(NewRow(other), m.id) && found in allowed && !FailedOrUnderWay(found)
    ensures !SafeToRequeue(allowed)
  {
    StartIsInitial(m);
    TwiceIsCareless(m.id, w0.lease, w2.lease);
    TwiceAfterSuccessIsCareless(m.id, w0.lease, w2.lease);
    ReportIsSent(m, NewRow(m), w0);
    var r := Decide(NewRow(m), w0).row;
    FirstHandedOut(m, w0, r);
    var twice := [Delivered(m.id, w0.lease), Delivered(m.id, w2.lease)];
    if found.None? {
      var rest := seq(CAPACITY - 1, _ => Foreign(""));
      ForeignIsInitial(m, rest);
      ReportIsSent(m, NewRow(m), w2);
      TrimmedIsResent(m, other, rest, {m.id}, w0, r, w2, allowed);
      Refutes(Filled(m, rest, {m.id}), m.id, allowed, twice);
    } else if found.value.Sent? {
      var receipt := Receipt(true, "", w0.now);
      ReportIsSent(m, Renewed(Settled(r, receipt), m), w2);
      SentIsResent(m, w0, r, receipt, w2, allowed);
      Refutes(Start(m), m.id, allowed, [Delivered(m.id, w0.lease), Receipted(m.id, w0.lease, true), Delivered(m.id, w2.lease)]);
    } else if found.value.ResultUnknown? {
      ReportIsSent(m, Renewed(r.(status := ResultUnknown, lastError := LeaseExpired, retryAt := Absent), m), w2);
      ExpiredIsResent(m, w0, r, w1, w2, allowed);
      Refutes(Start(m), m.id, allowed, twice);
    } else {
      ReportIsSent(m, Renewed(r.(status := found.value), m), w2);
      WithdrawnIsResent(m, w0, r, found.value, w2, allowed);
      Refutes(Start(m), m.id, allowed, twice);
    }
  }

  /**
    Queueing again only from certain statuses is safe exactly if they are `failed` (or a status from which a row is never
    queued again): then no message is sent again before every earlier send has a recorded failure receipt.
   */
  lemma SafeExactlyFromFailed(allowed: iset<Option<Status>>)
    ensures SafeToRequeue(allowed) <==> forall found :: found in allowed ==> FailedOrUnderWay(found)
  {
    if found :| found in allowed && !FailedOrUnderWay(found) {
      ReportIsPlain();
      OthersAreResent(REPORT, DRAFT, FIRST, EXPIRY, LATER, found, allowed);
    } else {
      forall s, steps, id | Initial(s) && Feasible(s, steps) && RequeuedOnlyFrom(s, steps, id, allowed)
        ensures !Careless(Run(s, steps).log, id)
      {
        FromFailed(s, steps, id, allowed);
        ResendOnlyAfterFailureReceipt(s, steps, id);
      }
    }
  }
}

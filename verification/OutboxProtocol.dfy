/**
  Delivery of the outbox by any number of workers. A worker claims a row, sends it without holding the file,
  and records a receipt; it may stop between any two of these, and the clock of every step is arbitrary.
  Other parts of the program write to the same file: they queue messages, withdraw rows that are not yet sent,
  and queue an id again whose row has ended, as the fixed daily reports do.
 */
module OutboxProtocol {
  import opened Outbox

  /** A worker between its claim and its receipt. */
  datatype Task = Task(id: string, lease: string, sent: bool)

  /** What the outside sees: a send handed to the channel, and a receipt accepted by the file. */
  datatype Event = Delivered(id: string, lease: string) | Receipted(id: string, lease: string, success: bool)

  /**
    `leases` and `ids` are the lease ids and message ids drawn so far, `tainted` the ids that were queued again although
    their row was gone or had ended otherwise than by failing.
   */
  datatype State = State(rows: seq<Row>, tasks: map<nat, Task>, leases: set<string>, ids: set<string>,
                         tainted: set<string>, log: seq<Event>)

  datatype Step =
    | Claiming(worker: nat, world: World)
    | SendingOut(worker: nat)
    | Finishing(worker: nat, receipt: Receipt)
    | Crashing(worker: nat)
    | Queueing(message: Message)
    | Requeueing(message: Message, offSchedule: bool)
    | Withdrawing(id: string, to: Status)

  function NewRow(message: Message): Row {
    Entry(message, Pending, "", Absent, 0, Absent, NoReason, NoReason)
  }

  /** Whether an id may be queued again: its row is gone or has ended, and was not sent within its window. */
  predicate Renewable(rows: seq<Row>, id: string, offSchedule: bool) {
    var i := Find(rows, id);
    i < |rows| ==> !Live(rows[i]) && (rows[i].status.Sent? ==> offSchedule)
  }

  /** The row of the id has failed. */
  predicate HasFailed(rows: seq<Row>, id: string) {
    var i := Find(rows, id);
    i < |rows| && rows[i].status.Failed?
  }

  /** A row that may still be sent, or is being sent. */
  predicate Live(r: Row) {
    r.Entry? && (Waiting(r) || r.status.Sending?)
  }

  /** A row queued again keeps what the new message does not bring. */
  function Renewed(r: Row, message: Message): Row
    requires r.Entry?
  {
    r.(message := message, status := Pending, attempts := 0)
  }

  function Requeued(rows: seq<Row>, message: Message): seq<Row> {
    var i := Find(rows, message.id);
    Newest(if i < |rows| then rows[i := Renewed(rows[i], message)] else rows + [NewRow(message)])
  }

  predicate WithdrawnTo(to: Status) {
    to.Suppressed? || to.ResultUnknown? || to.Unknown?
  }

  function Withdrawn(rows: seq<Row>, id: string, to: Status): seq<Row> {
    var i := Find(rows, id);
    if i < |rows| then Newest(rows[i := rows[i].(status := to)]) else rows
  }

  predicate Enabled(s: State, step: Step) {
    match step
    case Claiming(worker, world) => worker !in s.tasks && world.lease !in s.leases
    case SendingOut(worker) => worker in s.tasks && !s.tasks[worker].sent
    case Finishing(worker, receipt) => worker in s.tasks && s.tasks[worker].sent
    case Crashing(worker) => worker in s.tasks
    case Queueing(message) => message.id !in s.ids
    case Requeueing(message, offSchedule) => message.id in s.ids && Renewable(s.rows, message.id, offSchedule)
    case Withdrawing(id, to) => Find(s.rows, id) < |s.rows| && Live(s.rows[Find(s.rows, id)]) && WithdrawnTo(to)
  }

  function Apply(s: State, step: Step): State
    requires Enabled(s, step)
  {
    match step
    case Claiming(worker, world) =>
      var (rows, claim) := AfterClaim(s.rows, world);
      s.(rows := rows, leases := s.leases + {world.lease},
         tasks := if claim.Leased? then s.tasks[worker := Task(claim.item.message.id, world.lease, false)] else s.tasks)
    case SendingOut(worker) =>
      var task := s.tasks[worker];
      s.(tasks := s.tasks[worker := task.(sent := true)], log := s.log + [Delivered(task.id, task.lease)])
    case Finishing(worker, receipt) =>
      var task := s.tasks[worker];
      s.(rows := AfterFinish(s.rows, task.id, task.lease, receipt), tasks := s.tasks - {worker},
         log := if Current(s.rows, task.id, task.lease) then s.log + [Receipted(task.id, task.lease, receipt.success)]
                else s.log)
    case Crashing(worker) => s.(tasks := s.tasks - {worker})
    case Queueing(message) => s.(rows := Newest(s.rows + [NewRow(message)]), ids := s.ids + {message.id})
    case Requeueing(message, _) =>
      s.(rows := Requeued(s.rows, message),
         tainted := if HasFailed(s.rows, message.id) then s.tainted else s.tainted + {message.id})
    case Withdrawing(id, to) => s.(rows := Withdrawn(s.rows, id, to))
  }

  predicate Feasible(s: State, steps: seq<Step>)
    decreases |steps|
  {
    steps == [] || (Enabled(s, steps[0]) && Feasible(Apply(s, steps[0]), steps[1..]))
  }

  function Run(s: State, steps: seq<Step>): State
    requires Feasible(s, steps)
    decreases |steps|
  {
    if steps == [] then s else Run(Apply(s, steps[0]), steps[1..])
  }

  /** A store before any delivery: distinct ids, nothing attempted, nothing being sent. */
  ghost predicate Initial(s: State) {
    && DistinctIds(s.rows) && s.tasks == map[] && s.log == [] && s.tainted == {}
    && forall r :: r in s.rows && r.Entry? ==> r.message.id in s.ids && r.attempts == 0 && !r.status.Sending?
  }

  /** How one event changes the set of leases under which `id` was sent without a failure receipt since. */
  function Track(open: set<string>, e: Event, id: string): set<string> {
    if e.id != id then open
    else if e.Delivered? then open + {e.lease}
    else if e.success then open
    else open - {e.lease}
  }

  function OpenSends(log: seq<Event>, id: string): set<string> {
    if log == [] then {} else Track(OpenSends(log[..|log| - 1], id), log[|log| - 1], id)
  }

  function Sends(log: seq<Event>, id: string): nat {
    if log == [] then 0
    else Sends(log[..|log| - 1], id) + if log[|log| - 1].Delivered? && log[|log| - 1].id == id then 1 else 0
  }

  /** Every send of an id that is not exempt happened while all its earlier sends had a failure receipt. */
  ghost predicate Careful(log: seq<Event>, exempt: set<string>) {
    forall j :: 0 <= j < |log| && log[j].Delivered? && log[j].id !in exempt ==> OpenSends(log[..j], log[j].id) == {}
  }

  ghost predicate RowOk(s: State, r: Row)
    requires r.Entry?
  {
    && r.message.id in s.ids && (Waiting(r) ==> r.attempts < MAX_ATTEMPTS)
    && (r.message.id !in s.tainted ==> CleanRow(s, r))
  }

  /** Nothing of `id` is under way: every send has its failure receipt, and no worker is busy with it. */
  ghost predicate Quiet(s: State, id: string) {
    OpenSends(s.log, id) == {} && forall w :: w in s.tasks ==> s.tasks[w].id != id
  }

  /** What holds of the row of an id that was queued again, if at all, only after it had failed. */
  ghost predicate CleanRow(s: State, r: Row)
    requires r.Entry?
  {
    var id := r.message.id;
    && (Waiting(r) || r.status.Failed? ==> Quiet(s, id))
    && (r.status.Sending? ==>
          && r.leaseId in s.leases && OpenSends(s.log, id) <= {r.leaseId}
          && forall w :: w in s.tasks && s.tasks[w].id == id ==> s.tasks[w].lease == r.leaseId)
  }

  ghost predicate TaskOk(s: State, task: Task) {
    && task.id in s.ids && task.lease in s.leases
    && (!task.sent && task.id !in s.tainted ==> OpenSends(s.log, task.id) == {})
  }

  /** What every step keeps. */
  ghost predicate Invariant(s: State) {
    && DistinctIds(s.rows)
    && (forall r :: r in s.rows && r.Entry? ==> RowOk(s, r))
    && (forall w :: w in s.tasks ==> TaskOk(s, s.tasks[w]))
    && (forall v, w :: v in s.tasks && w in s.tasks && v != w && s.tasks[v].id !in s.tainted ==>
          s.tasks[v].id != s.tasks[w].id)
    && (forall id :: id !in s.ids ==> OpenSends(s.log, id) == {})
    && s.tainted <= s.ids && Careful(s.log, s.tainted)
  }

  lemma LogGrows(log: seq<Event>, e: Event, id: string)
    ensures OpenSends(log + [e], id) == Track(OpenSends(log, id), e, id)
    ensures Sends(log + [e], id) == Sends(log, id) + if e.Delivered? && e.id == id then 1 else 0
  {
    assert (log + [e])[..|log|] == log;
  }

  lemma CarefulGrows(log: seq<Event>, e: Event, exempt: set<string>)
    requires Careful(log, exempt)
    requires e.Delivered? && e.id !in exempt ==> OpenSends(log, e.id) == {}
    ensures Careful(log + [e], exempt)
  {
    var grown := log + [e];
    forall j | 0 <= j < |grown| && grown[j].Delivered? && grown[j].id !in exempt ensures OpenSends(grown[..j], grown[j].id) == {} {
      assert grown[..j] == log[..j];
      if j == |log| {
        assert log[..j] == log;
      }
    }
  }

  lemma NewestDistinct(rows: seq<Row>)
    requires DistinctIds(rows)
    ensures DistinctIds(Newest(rows))
  {
    var kept := Newest(rows);
    var shift := |rows| - |kept|;
    assert forall k :: 0 <= k < |kept| ==> kept[k] == rows[k + shift];
  }

  /** The same element as far as ids are concerned. */
  predicate SameId(a: Row, b: Row) {
    if a.Entry? && b.Entry? then a.message.id == b.message.id else a == b
  }

  /** Keeping the newest rows and replacing one row by a version of itself keep ids distinct. */
  lemma RewriteKeepsIds(rows: seq<Row>, i: nat, r: Row)
    requires DistinctIds(rows) && i < |rows| && SameId(rows[i], r)
    ensures DistinctIds(Newest(rows[i := r]))
    ensures forall x :: x in Newest(rows[i := r]) ==> x == r || (x in rows && (x.Foreign? || r.Foreign? || x.message.id != r.message.id))
  {
    var updated := rows[i := r];
    var kept := Newest(updated);
    var shift := |updated| - |kept|;
    NewestDistinct(updated);
    assert forall k :: 0 <= k < |kept| ==> kept[k] == updated[k + shift];
    forall x | x in kept && x != r ensures x in rows && (x.Foreign? || r.Foreign? || x.message.id != r.message.id) {
      var k :| 0 <= k < |kept| && kept[k] == x;
      assert updated[k + shift] == x && k + shift != i;
      assert rows[k + shift] == x;
    }
  }

  /** The state after a claim hands a row out. */
  function HandedState(s: State, rows: seq<Row>, r: Row, worker: nat, lease: string): State
    requires r.Entry?
  {
    s.(rows := rows, leases := s.leases + {lease}, tasks := s.tasks[worker := Task(r.message.id, lease, false)])
  }

  lemma HandOutKeeps(s: State, i: nat, r: Row, worker: nat, w: World)
    requires Invariant(s) && i < |s.rows| && HandedOut(s.rows[i], r, w)
    requires worker !in s.tasks && w.lease !in s.leases
    ensures Invariant(HandedState(s, Newest(s.rows[i := r]), r, worker, w.lease))
  {
    var rows := Newest(s.rows[i := r]);
    var s' := HandedState(s, rows, r, worker, w.lease);
    RewriteKeepsIds(s.rows, i, r);
    assert RowOk(s, s.rows[i]);
    HandedRowOk(s, s.rows[i], r, rows, worker, w);
    forall x | x in rows && x.Entry? ensures RowOk(s', x) {
      if x != r {
        OtherRowOk(s, x, r, rows, worker, w.lease);
      }
    }
    HandedTasksOk(s, s.rows[i], r, rows, worker, w);
  }

  lemma HandedRowOk(s: State, was: Row, r: Row, rows: seq<Row>, worker: nat, w: World)
    requires HandedOut(was, r, w) && RowOk(s, was) && worker !in s.tasks
    ensures RowOk(HandedState(s, rows, r, worker, w.lease), r)
  {
  }

  lemma OtherRowOk(s: State, x: Row, r: Row, rows: seq<Row>, worker: nat, lease: string)
    requires x.Entry? && r.Entry? && x in s.rows && RowOk(s, x) && x.message.id != r.message.id
    requires worker !in s.tasks
    ensures RowOk(HandedState(s, rows, r, worker, lease), x)
  {
  }

  lemma HandedTasksOk(s: State, was: Row, r: Row, rows: seq<Row>, worker: nat, w: World)
    requires Invariant(s) && HandedOut(was, r, w) && RowOk(s, was) && worker !in s.tasks
    ensures var s' := HandedState(s, rows, r, worker, w.lease);
            && (forall v :: v in s'.tasks ==> TaskOk(s', s'.tasks[v]))
            && forall v, u :: v in s'.tasks && u in s'.tasks && v != u && s'.tasks[v].id !in s'.tainted ==> s'.tasks[v].id != s'.tasks[u].id
  {
  }

  lemma EndKeeps(s: State, i: nat, r: Row, now: int, lease: string)
    requires Invariant(s) && i < |s.rows| && Ended(s.rows[i], r, now)
    ensures Invariant(s.(rows := Newest(s.rows[i := r]), leases := s.leases + {lease}))
  {
    var s' := s.(rows := Newest(s.rows[i := r]), leases := s.leases + {lease});
    RewriteKeepsIds(s.rows, i, r);
    assert RowOk(s, s.rows[i]);
    forall x | x in s'.rows && x.Entry? ensures RowOk(s', x) {
      if x != r {
        assert RowOk(s, x);
      }
    }
  }

  lemma ClaimKeeps(s: State, step: Step)
    requires Invariant(s) && step.Claiming? && Enabled(s, step)
    ensures Invariant(Apply(s, step))
  {
    var w := step.world;
    var i := Actionable(s.rows, w);
    if i < |s.rows| {
      VerdictEffect(s.rows[i], w);
      var v := Decide(s.rows[i], w);
      if v.Lease? {
        HandOutKeeps(s, i, v.row, step.worker, w);
      } else {
        EndKeeps(s, i, v.row, w.now, w.lease);
      }
    } else {
      forall r | r in s.rows && r.Entry? ensures RowOk(Apply(s, step), r) {
        assert RowOk(s, r);
      }
    }
  }

  lemma SendKeeps(s: State, step: Step)
    requires Invariant(s) && step.SendingOut? && Enabled(s, step)
    ensures Invariant(Apply(s, step))
  {
    var task := s.tasks[step.worker];
    var e := Delivered(task.id, task.lease);
    var s' := Apply(s, step);
    assert TaskOk(s, task);
    CarefulGrows(s.log, e, s.tainted);
    forall id ensures OpenSends(s'.log, id) == OpenSends(s.log, id) + if id == task.id then {task.lease} else {}
    {
      LogGrows(s.log, e, id);
    }
    forall r | r in s'.rows && r.Entry? ensures RowOk(s', r) {
      assert RowOk(s, r);
    }
    forall w | w in s'.tasks ensures TaskOk(s', s'.tasks[w]) {
      assert TaskOk(s, s.tasks[w]);
    }
  }

  /** What a receipt that counts makes of a row. */
  ghost predicate Released(r: Row, r': Row, success: bool) {
    && r.Entry? && r.status.Sending? && r'.Entry? && r'.message == r.message && r'.attempts == r.attempts
    && (if success then r'.status.Sent? else if r.attempts < MAX_ATTEMPTS then r'.status.RetryPending? else r'.status.Failed?)
  }

  lemma SettleKeeps(s: State, i: nat, r: Row, worker: nat, success: bool)
    requires Invariant(s) && i < |s.rows| && worker in s.tasks && s.tasks[worker].sent
    requires Released(s.rows[i], r, success)
    requires s.rows[i].message.id == s.tasks[worker].id && s.rows[i].leaseId == s.tasks[worker].lease
    ensures Invariant(s.(rows := Newest(s.rows[i := r]), tasks := s.tasks - {worker},
                         log := s.log + [Receipted(s.tasks[worker].id, s.tasks[worker].lease, success)]))
  {
    var task := s.tasks[worker];
    var e := Receipted(task.id, task.lease, success);
    var s' := s.(rows := Newest(s.rows[i := r]), tasks := s.tasks - {worker}, log := s.log + [e]);
    CarefulGrows(s.log, e, s.tainted);
    forall id ensures OpenSends(s'.log, id) == Track(OpenSends(s.log, id), e, id) {
      LogGrows(s.log, e, id);
    }
    RewriteKeepsIds(s.rows, i, r);
    assert RowOk(s, s.rows[i]);
    forall x | x in s'.rows && x.Entry? ensures RowOk(s', x) {
      if x != r {
        assert RowOk(s, x);
      }
    }
    forall w | w in s'.tasks ensures TaskOk(s', s'.tasks[w]) {
      assert TaskOk(s, s.tasks[w]);
    }
  }

  lemma FinishKeeps(s: State, step: Step)
    requires Invariant(s) && step.Finishing? && Enabled(s, step)
    ensures Invariant(Apply(s, step))
  {
    var task := s.tasks[step.worker];
    if Current(s.rows, task.id, task.lease) {
      var i := Find(s.rows, task.id);
      SettleKeeps(s, i, Settled(s.rows[i], step.receipt), step.worker, step.receipt.success);
    } else {
      forall r | r in s.rows && r.Entry? ensures RowOk(Apply(s, step), r) {
        assert RowOk(s, r);
      }
    }
  }

  lemma QueuedRows(rows: seq<Row>, r: Row)
    requires DistinctIds(rows) && r.Entry? && forall x :: x in rows && x.Entry? ==> x.message.id != r.message.id
    ensures DistinctIds(Newest(rows + [r]))
    ensures forall x :: x in Newest(rows + [r]) ==> x == r || x in rows
  {
    var grown := rows + [r];
    var kept := Newest(grown);
    forall i, j | 0 <= i < j < |grown| && grown[i].Entry? && grown[j].Entry? ensures grown[i].message.id != grown[j].message.id {
      assert grown[i] in rows;
    }
    assert forall k :: 0 <= k < |kept| ==> kept[k] == grown[k + |grown| - |kept|];
  }

  lemma QueueKeeps(s: State, step: Step)
    requires Invariant(s) && step.Queueing? && Enabled(s, step)
    ensures Invariant(Apply(s, step))
  {
    var s' := Apply(s, step);
    var r := NewRow(step.message);
    forall x | x in s.rows && x.Entry? ensures x.message.id != step.message.id {
      assert RowOk(s, x);
    }
    QueuedRows(s.rows, r);
    forall w | w in s'.tasks ensures s'.tasks[w].id != step.message.id && TaskOk(s', s'.tasks[w]) {
      assert TaskOk(s, s.tasks[w]);
    }
    forall x | x in s'.rows && x.Entry? ensures RowOk(s', x) {
      if x != r {
        assert RowOk(s, x);
      }
    }
  }

  /** Queueing again leaves the other rows and a waiting row of the id. */
  lemma RequeuedRows(rows: seq<Row>, message: Message)
    requires DistinctIds(rows)
    ensures DistinctIds(Requeued(rows, message))
    ensures forall x :: x in Requeued(rows, message) ==>
              x in rows || (x.Entry? && x.message == message && x.status.Pending? && x.attempts == 0)
  {
    var i := Find(rows, message.id);
    if i < |rows| {
      RewriteKeepsIds(rows, i, Renewed(rows[i], message));
    } else {
      QueuedRows(rows, NewRow(message));
    }
  }

  /** An id is quiet when its row has failed. */
  lemma FailedIsQuiet(s: State, id: string)
    requires Invariant(s) && HasFailed(s.rows, id) && id !in s.tainted
    ensures Quiet(s, id)
  {
    assert RowOk(s, s.rows[Find(s.rows, id)]);
  }

  /** The rows and the exemptions may change like this without breaking anything. */
  lemma RenewalKeeps(s: State, rows: seq<Row>, id: string, tainted: set<string>)
    requires Invariant(s) && id in s.ids && DistinctIds(rows)
    requires tainted == s.tainted || tainted == s.tainted + {id}
    requires id !in tainted ==> Quiet(s, id)
    requires forall x :: x in rows ==>
               x in s.rows || (x.Entry? && x.message.id == id && x.status.Pending? && x.attempts == 0)
    ensures Invariant(s.(rows := rows, tainted := tainted))
  {
    var s' := s.(rows := rows, tainted := tainted);
    forall x | x in rows && x.Entry? ensures RowOk(s', x) {
      if x in s.rows {
        assert RowOk(s, x);
        assert CleanRow(s, x) ==> CleanRow(s', x);
      } else {
        assert Quiet(s', id) <==> Quiet(s, id);
      }
    }
    forall w | w in s'.tasks ensures TaskOk(s', s'.tasks[w]) {
      assert TaskOk(s, s.tasks[w]);
    }
  }

  lemma RequeueKeeps(s: State, step: Step)
    requires Invariant(s) && step.Requeueing? && Enabled(s, step)
    ensures Invariant(Apply(s, step))
  {
    var id := step.message.id;
    RequeuedRows(s.rows, step.message);
    var tainted := if HasFailed(s.rows, id) then s.tainted else s.tainted + {id};
    if id !in tainted {
      FailedIsQuiet(s, id);
    }
    RenewalKeeps(s, Requeued(s.rows, step.message), id, tainted);
  }

  lemma WithdrawKeeps(s: State, step: Step)
    requires Invariant(s) && step.Withdrawing? && Enabled(s, step)
    ensures Invariant(Apply(s, step))
  {
    var s' := Apply(s, step);
    var i := Find(s.rows, step.id);
    var r := s.rows[i].(status := step.to);
    RewriteKeepsIds(s.rows, i, r);
    assert RowOk(s, s.rows[i]);
    forall x | x in s'.rows && x.Entry? ensures RowOk(s', x) {
      if x != r {
        assert RowOk(s, x);
      }
    }
    forall w | w in s'.tasks ensures TaskOk(s', s'.tasks[w]) {
      assert TaskOk(s, s.tasks[w]);
    }
  }

  lemma StepKeeps(s: State, step: Step)
    requires Invariant(s) && Enabled(s, step)
    ensures Invariant(Apply(s, step))
  {
    match step
    case Requeueing(_, _) => RequeueKeeps(s, step);
    case Withdrawing(_, _) => WithdrawKeeps(s, step);
    case Claiming(_, _) => ClaimKeeps(s, step);
    case SendingOut(_) => SendKeeps(s, step);
    case Finishing(_, _) => FinishKeeps(s, step);
    case Queueing(_) => QueueKeeps(s, step);
    case Crashing(_) =>
      forall r | r in s.rows && r.Entry? ensures RowOk(Apply(s, step), r) {
        assert RowOk(s, r);
      }
      forall w | w in s.tasks ensures TaskOk(Apply(s, step), s.tasks[w]) {
        assert TaskOk(s, s.tasks[w]);
      }
  }

  lemma {:induction false} RunKeeps(s: State, steps: seq<Step>)
    requires Invariant(s) && Feasible(s, steps)
    ensures Invariant(Run(s, steps))
    decreases |steps|
  {
    if steps != [] {
      StepKeeps(s, steps[0]);
      RunKeeps(Apply(s, steps[0]), steps[1..]);
    }
  }

  lemma InitialInvariant(s: State)
    requires Initial(s)
    ensures Invariant(s)
  {
  }

  /** The step queues `id` again. */
  predicate Renews(step: Step, id: string) {
    step.Requeueing? && step.message.id == id
  }

  /** The run never queues `id` again. */
  ghost predicate NotRequeued(steps: seq<Step>, id: string) {
    forall k :: 0 <= k < |steps| ==> !Renews(steps[k], id)
  }

  /** Every step of the run that queues `id` again finds its row failed. */
  ghost predicate RequeuedOnlyFailed(s: State, steps: seq<Step>, id: string)
    requires Feasible(s, steps)
    decreases |steps|
  {
    steps == [] || ((Renews(steps[0], id) ==> HasFailed(s.rows, id)) && RequeuedOnlyFailed(Apply(s, steps[0]), steps[1..], id))
  }

  lemma {:induction false} StaysUntainted(s: State, steps: seq<Step>, id: string)
    requires Feasible(s, steps) && RequeuedOnlyFailed(s, steps, id) && id !in s.tainted
    ensures id !in Run(s, steps).tainted
    decreases |steps|
  {
    if steps != [] {
      UntaintedStep(s, steps[0], id);
      StaysUntainted(Apply(s, steps[0]), steps[1..], id);
    }
  }

  lemma UntaintedStep(s: State, step: Step, id: string)
    requires Enabled(s, step) && (Renews(step, id) ==> HasFailed(s.rows, id)) && id !in s.tainted
    ensures id !in Apply(s, step).tainted
  {
  }

  /** A send that no failure receipt followed is still open. */
  lemma {:induction false} OpenUntilFailure(log: seq<Event>, i: nat, j: nat)
    requires i < j <= |log| && log[i].Delivered?
    requires forall k :: i < k < j ==> log[k] != Receipted(log[i].id, log[i].lease, false)
    ensures log[i].lease in OpenSends(log[..j], log[i].id)
  {
    assert log[..j][..j - 1] == log[..j - 1];
    if i < j - 1 {
      OpenUntilFailure(log, i, j - 1);
    }
  }

  /** In a careful log, a send is repeated only after a failure receipt for it. */
  lemma CarefulResend(log: seq<Event>, exempt: set<string>, i: nat, j: nat)
    requires Careful(log, exempt)
    requires i < j < |log| && log[i].Delivered? && log[j].Delivered? && log[i].id == log[j].id && log[i].id !in exempt
    ensures exists k :: i < k < j && log[k] == Receipted(log[i].id, log[i].lease, false)
  {
    if forall k :: i < k < j ==> log[k] != Receipted(log[i].id, log[i].lease, false) {
      OpenUntilFailure(log, i, j);
      assert false;
    }
  }

  /** Two sends of `id` of which the first has no failure receipt before the second. */
  ghost predicate CarelessAt(log: seq<Event>, id: string, i: nat, j: nat) {
    && i < j < |log| && log[i].Delivered? && log[j].Delivered? && log[i].id == id == log[j].id
    && forall k :: i < k < j ==> log[k] != Receipted(id, log[i].lease, false)
  }

  ghost predicate Careless(log: seq<Event>, id: string) {
    exists i: nat, j: nat :: CarelessAt(log, id, i, j)
  }

  /**
    Over any run that queues it again, if at all, only after it failed, a message is sent again only when every earlier
    send has a recorded failure receipt.
   */
  lemma ResendOnlyAfterFailureReceipt(s: State, steps: seq<Step>, id: string)
    requires Initial(s) && Feasible(s, steps) && RequeuedOnlyFailed(s, steps, id)
    ensures !Careless(Run(s, steps).log, id)
  {
    InitialInvariant(s);
    RunKeeps(s, steps);
    StaysUntainted(s, steps, id);
    var t := Run(s, steps);
    forall i: nat, j: nat ensures !CarelessAt(t.log, id, i, j) {
      if i < j < |t.log| && t.log[i].Delivered? && t.log[j].Delivered? && t.log[i].id == id == t.log[j].id {
        CarefulResend(t.log, t.tainted, i, j);
      }
    }
  }

  /** How a row of the next state came about. */
  ghost predicate Evolved(s: State, step: Step, r: Row, r': Row)
    requires Enabled(s, step)
  {
    && r.Entry? && r'.Entry? && r.message == r'.message && r in s.rows
    && match step
       case Claiming(_, world) => !Decide(r, world).Skip? && r' == Decide(r, world).row
       case Finishing(worker, receipt) =>
         && r.status.Sending? && r.leaseId == s.tasks[worker].lease && r.message.id == s.tasks[worker].id
         && r' == Settled(r, receipt)
       case Withdrawing(_, to) => Live(r) && r' == r.(status := to)
       case _ => false
  }

  lemma ClaimOrigin(s: State, step: Step, r': Row)
    requires Invariant(s) && Enabled(s, step) && step.Claiming? && r' in Apply(s, step).rows && r'.Entry?
    ensures r' in s.rows || exists r :: Evolved(s, step, r, r')
  {
    var i := Actionable(s.rows, step.world);
    if i < |s.rows| {
      VerdictEffect(s.rows[i], step.world);
      var v := Decide(s.rows[i], step.world);
      RewriteKeepsIds(s.rows, i, v.row);
      if r' !in s.rows {
        assert Evolved(s, step, s.rows[i], r');
      }
    }
  }

  lemma FinishOrigin(s: State, step: Step, r': Row)
    requires Invariant(s) && Enabled(s, step) && step.Finishing? && r' in Apply(s, step).rows && r'.Entry?
    ensures r' in s.rows || exists r :: Evolved(s, step, r, r')
  {
    var task := s.tasks[step.worker];
    if Current(s.rows, task.id, task.lease) {
      var i := Find(s.rows, task.id);
      var settled := Settled(s.rows[i], step.receipt);
      RewriteKeepsIds(s.rows, i, settled);
      if r' !in s.rows {
        assert Evolved(s, step, s.rows[i], r');
      }
    }
  }

  lemma WithdrawOrigin(s: State, step: Step, r': Row)
    requires Invariant(s) && Enabled(s, step) && step.Withdrawing? && r' in Apply(s, step).rows && r'.Entry?
    ensures r' in s.rows || exists r :: Evolved(s, step, r, r')
  {
    var i := Find(s.rows, step.id);
    var withdrawn := s.rows[i].(status := step.to);
    RewriteKeepsIds(s.rows, i, withdrawn);
    if r' !in s.rows {
      assert Evolved(s, step, s.rows[i], r');
    }
  }

  lemma RequeueOrigin(s: State, step: Step, r': Row)
    requires Invariant(s) && Enabled(s, step) && step.Requeueing? && r' in Apply(s, step).rows && r'.Entry?
    ensures r' in s.rows || r'.message == step.message
  {
    var i := Find(s.rows, step.message.id);
    if i < |s.rows| {
      RewriteKeepsIds(s.rows, i, Renewed(s.rows[i], step.message));
    } else {
      assert r' in s.rows + [NewRow(step.message)];
    }
  }

  /** A row after a step is an old row, a newly queued one, or one old row rewritten by a claim, a current receipt or a withdrawal. */
  lemma RowOrigin(s: State, step: Step, r': Row)
    requires Invariant(s) && Enabled(s, step) && r' in Apply(s, step).rows && r'.Entry?
    ensures || r' in s.rows
            || (step.Queueing? && r' == NewRow(step.message))
            || (step.Requeueing? && r'.message == step.message)
            || exists r :: Evolved(s, step, r, r')
  {
    if step.Claiming? {
      ClaimOrigin(s, step, r');
    } else if step.Finishing? {
      FinishOrigin(s, step, r');
    } else if step.Withdrawing? {
      WithdrawOrigin(s, step, r');
    } else if step.Requeueing? {
      RequeueOrigin(s, step, r');
    } else if step.Queueing? {
      assert r' in s.rows + [NewRow(step.message)];
    }
  }

  lemma SameRow(rows: seq<Row>, a: Row, b: Row)
    requires DistinctIds(rows) && a in rows && b in rows && a.Entry? && b.Entry? && a.message.id == b.message.id
    ensures a == b
  {
    var i :| 0 <= i < |rows| && rows[i] == a;
    var j :| 0 <= j < |rows| && rows[j] == b;
    assert i == j;
  }

  /** Every row that carries the id of `r` is `r` itself. */
  ghost predicate Pinned(s: State, r: Row)
    requires r.Entry?
  {
    r.message.id in s.ids && forall x :: x in s.rows && x.Entry? && x.message.id == r.message.id ==> x == r
  }

  lemma RowPinned(s: State, r: Row)
    requires Invariant(s) && r in s.rows && r.Entry?
    ensures Pinned(s, r)
  {
    assert RowOk(s, r);
    forall x | x in s.rows && x.Entry? && x.message.id == r.message.id ensures x == r {
      SameRow(s.rows, x, r);
    }
  }

  lemma EvolvedFromLive(s: State, step: Step, r: Row, r': Row)
    requires Enabled(s, step) && Evolved(s, step, r, r')
    ensures Live(r) && Remaining(r') < Remaining(r)
  {
    match step
    case Claiming(_, world) => VerdictEffect(r, world); EffectConsumes(r, world, Receipt(true, "", 0));
    case Finishing(_, receipt) => EffectConsumes(r, World(0, "", {}, {}, {}, map[]), receipt);
    case Withdrawing(_, _) =>
  }

  function RowClaims(r: Row): nat {
    if Live(r) && r.attempts < MAX_ATTEMPTS then MAX_ATTEMPTS - r.attempts else 0
  }

  /** One row of the list became another one that has less to come. */
  ghost predicate Spent(rows: seq<Row>, r: Row, r': Row) {
    && r in rows && r'.Entry? && Live(r) && r.message == r'.message
    && Remaining(r') < Remaining(r) && RowClaims(r') <= RowClaims(r)
  }

  /** Where a row comes from over a step: it was there, it is queued, or an earlier row spent something. */
  ghost predicate Origin(rows: seq<Row>, step: Step, r': Row) {
    || r' in rows
    || (step.Queueing? && r' == NewRow(step.message))
    || (step.Requeueing? && r'.Entry? && r'.message == step.message)
    || exists r :: Spent(rows, r, r')
  }

  lemma OriginOf(s: State, step: Step, r': Row)
    requires Invariant(s) && Enabled(s, step) && r' in Apply(s, step).rows && r'.Entry?
    ensures Origin(s.rows, step, r')
  {
    RowOrigin(s, step, r');
    if r :| Evolved(s, step, r, r') {
      EvolvedSpends(s, step, r, r');
    }
  }

  lemma EvolvedSpends(s: State, step: Step, r: Row, r': Row)
    requires Invariant(s) && Enabled(s, step) && Evolved(s, step, r, r')
    ensures Spent(s.rows, r, r')
  {
    assert RowOk(s, r);
    EvolvedFromLive(s, step, r, r');
    if step.Claiming? {
      VerdictEffect(r, step.world);
    }
  }

  /** What a step that does not renew `id` can do to its row. */
  ghost predicate Moves(rows: seq<Row>, ids: set<string>, rows': seq<Row>, ids': set<string>, id: string) {
    var i, j := Find(rows, id), Find(rows', id);
    && ids <= ids' && (i < |rows| ==> id in ids)
    && (j < |rows'| ==>
          if i < |rows| then rows'[j] == rows[i] || Spent(rows, rows[i], rows'[j])
          else id !in ids && id in ids' && Waiting(rows'[j]) && rows'[j].attempts == 0)
  }

  lemma MovesOf(s: State, step: Step, id: string)
    requires Invariant(s) && Enabled(s, step) && !Renews(step, id)
    ensures Moves(s.rows, s.ids, Apply(s, step).rows, Apply(s, step).ids, id)
  {
    var rows, rows' := s.rows, Apply(s, step).rows;
    var i, j := Find(rows, id), Find(rows', id);
    if i < |rows| {
      assert RowOk(s, rows[i]);
    }
    if j < |rows'| {
      OriginOf(s, step, rows'[j]);
      MovesFrom(rows, s.ids, step, rows'[j], id);
    }
  }

  lemma MovesFrom(rows: seq<Row>, ids: set<string>, step: Step, r': Row, id: string)
    requires DistinctIds(rows) && Origin(rows, step, r') && r'.Entry? && r'.message.id == id && !Renews(step, id)
    requires (step.Queueing? ==> step.message.id !in ids) && (Find(rows, id) < |rows| ==> id in ids)
    ensures var i := Find(rows, id);
            if i < |rows| then r' == rows[i] || Spent(rows, rows[i], r')
            else step.Queueing? && id == step.message.id && r' == NewRow(step.message)
  {
    var i := Find(rows, id);
    if i < |rows| {
      if r' in rows {
        SameRow(rows, r', rows[i]);
      } else if r :| Spent(rows, r, r') {
        SameRow(rows, r, rows[i]);
      }
    }
  }

  lemma {:induction false} PinnedStays(s: State, steps: seq<Step>, r: Row)
    requires Invariant(s) && Feasible(s, steps)
    requires Terminal(r) && Pinned(s, r) && NotRequeued(steps, r.message.id)
    ensures Pinned(Run(s, steps), r)
    decreases |steps|
  {
    if steps != [] {
      PinnedStep(s, steps[0], r);
      StepKeeps(s, steps[0]);
      assert forall k :: 0 <= k < |steps[1..]| ==> steps[1..][k] == steps[k + 1];
      PinnedStays(Apply(s, steps[0]), steps[1..], r);
    }
  }

  lemma PinnedStep(s: State, step: Step, r: Row)
    requires Invariant(s) && Enabled(s, step) && Terminal(r) && Pinned(s, r) && !Renews(step, r.message.id)
    ensures Pinned(Apply(s, step), r)
  {
    forall x | x in Apply(s, step).rows && x.Entry? && x.message.id == r.message.id ensures x == r {
      PinnedRow(s, step, r, x);
    }
  }

  lemma PinnedRow(s: State, step: Step, r: Row, x: Row)
    requires Invariant(s) && Enabled(s, step) && Terminal(r) && Pinned(s, r) && !Renews(step, r.message.id)
    requires x in Apply(s, step).rows && x.Entry? && x.message.id == r.message.id
    ensures x == r
  {
    OriginOf(s, step, x);
    assert step.Queueing? ==> step.message.id !in s.ids;
    PinnedOrigin(s.rows, step, r, x);
  }

  lemma PinnedOrigin(rows: seq<Row>, step: Step, r: Row, x: Row)
    requires Terminal(r) && forall y :: y in rows && y.Entry? && y.message.id == r.message.id ==> y == r
    requires Origin(rows, step, x) && x.Entry? && x.message.id == r.message.id
    requires !Renews(step, r.message.id) && (step.Queueing? ==> step.message.id != r.message.id)
    ensures x == r
  {
  }

  /**
    `Sent`, `Failed`, `Suppressed` and `ResultUnknown` are absorbing: unless its id is queued again, no run changes
    such a row, nor puts another one in its place.
   */
  lemma TerminalRowsStay(s: State, steps: seq<Step>, r: Row)
    requires Invariant(s) && Feasible(s, steps)
    requires r in s.rows && Terminal(r) && NotRequeued(steps, r.message.id)
    ensures forall x :: x in Run(s, steps).rows && x.Entry? && x.message.id == r.message.id ==> x == r
  {
    RowPinned(s, r);
    PinnedStays(s, steps, r);
  }

  /** A row that has ended without an accepted receipt. */
  predicate Given(r: Row) {
    r.Entry? && WithdrawnTo(r.status)
  }

  /** A row being sent whose worker is gone. */
  ghost predicate Abandoned(s: State, r: Row) {
    && r.Entry? && r.status.Sending? && r.message.id in s.ids
    && (forall w :: w in s.tasks ==> s.tasks[w].id != r.message.id)
    && forall x :: x in s.rows && x.Entry? && x.message.id == r.message.id ==> x == r || (x.message == r.message && Given(x))
  }

  lemma AbandonedRows(s: State, step: Step, r: Row, x: Row)
    requires Invariant(s) && Enabled(s, step) && Abandoned(s, r) && !Renews(step, r.message.id)
    requires x in Apply(s, step).rows && x.Entry? && x.message.id == r.message.id
    ensures x == r || (x.message == r.message && Given(x))
  {
    RowOrigin(s, step, x);
    if q :| Evolved(s, step, q, x) {
      AbandonedEvolves(s, step, r, q, x);
    }
  }

  lemma AbandonedEvolves(s: State, step: Step, r: Row, q: Row, x: Row)
    requires Enabled(s, step) && Abandoned(s, r) && Evolved(s, step, q, x) && x.message.id == r.message.id
    ensures x.message == r.message && Given(x)
  {
    EvolvedFromLive(s, step, q, x);
    assert q == r && (step.Claiming? || step.Withdrawing?);
    if step.Claiming? {
      VerdictEffect(q, step.world);
    }
  }

  lemma AbandonedTasks(s: State, step: Step, r: Row)
    requires Invariant(s) && Enabled(s, step) && Abandoned(s, r)
    ensures forall w :: w in Apply(s, step).tasks ==> Apply(s, step).tasks[w].id != r.message.id
    ensures Sends(Apply(s, step).log, r.message.id) == Sends(s.log, r.message.id)
  {
    match step
    case Claiming(_, world) => AbandonedNotClaimed(s, world, r);
    case SendingOut(w) => LogGrows(s.log, Delivered(s.tasks[w].id, s.tasks[w].lease), r.message.id);
    case Finishing(w, receipt) => LogGrows(s.log, Receipted(s.tasks[w].id, s.tasks[w].lease, receipt.success), r.message.id);
    case _ =>
  }

  lemma AbandonedNotClaimed(s: State, w: World, r: Row)
    requires Abandoned(s, r)
    ensures AfterClaim(s.rows, w).1.Leased? ==> AfterClaim(s.rows, w).1.item.message.id != r.message.id
  {
    var i := Actionable(s.rows, w);
    if i < |s.rows| {
      VerdictEffect(s.rows[i], w);
      assert s.rows[i] in s.rows;
    }
  }

  /** A worker that stops in the middle of a send leaves its row to nobody. */
  lemma CrashAbandons(s: State, worker: nat, r: Row)
    requires Invariant(s) && worker in s.tasks && s.tasks[worker].id !in s.tainted
    requires r in s.rows && r.Entry? && r.message.id == s.tasks[worker].id && r.status.Sending?
    ensures Abandoned(Apply(s, Crashing(worker)), r)
  {
    RowPinned(s, r);
  }

  /** A claim whose first row of interest is this one being sent: it is reached, and ends as unknown, exactly if the lease has run out. */
  lemma ExpiredClaimEnds(rows: seq<Row>, i: nat, w: World)
    requires i < |rows| && rows[i].Entry? && rows[i].status.Sending?
    requires forall k :: 0 <= k < i ==> Decide(rows[k], w).Skip?
    ensures Actionable(rows, w) == i <==> rows[i].leaseExpires.At? && rows[i].leaseExpires.t <= w.now
    ensures Actionable(rows, w) == i ==>
              AfterClaim(rows, w).1 == Closed(rows[i].(status := ResultUnknown, lastError := LeaseExpired, retryAt := Absent), LeaseExpired)
  {
  }

  /**
    A lost send is never repeated: unless its id is queued again, its row stays as it is until a claim finds the lease
    expired or another writer withdraws it, and then stays ended.
   */
  lemma {:induction false} LostSendEndsUnknown(s: State, steps: seq<Step>, r: Row)
    requires Invariant(s) && Feasible(s, steps) && Abandoned(s, r) && NotRequeued(steps, r.message.id)
    ensures Abandoned(Run(s, steps), r)
    ensures Sends(Run(s, steps).log, r.message.id) == Sends(s.log, r.message.id)
    decreases |steps|
  {
    if steps != [] {
      var s1 := Apply(s, steps[0]);
      forall x | x in s1.rows && x.Entry? && x.message.id == r.message.id
        ensures x == r || (x.message == r.message && Given(x))
      {
        AbandonedRows(s, steps[0], r, x);
      }
      AbandonedTasks(s, steps[0], r);
      StepKeeps(s, steps[0]);
      assert forall k :: 0 <= k < |steps[1..]| ==> steps[1..][k] == steps[k + 1];
      LostSendEndsUnknown(s1, steps[1..], r);
    }
  }

  /** The status under which a message is stored, if it is. */
  function StatusOf(rows: seq<Row>, id: string): (status: set<Status>) {
    var i := Find(rows, id);
    if i < |rows| then {rows[i].status} else {}
  }

  /** In how many steps of a run a stored message changes its status. */
  function StatusChanges(s: State, steps: seq<Step>, id: string): nat
    requires Feasible(s, steps)
    decreases |steps|
  {
    if steps == [] then 0 else
    var s1 := Apply(s, steps[0]);
    var before, after := StatusOf(s.rows, id), StatusOf(s1.rows, id);
    StatusChanges(s1, steps[1..], id) + if before != {} && after != {} && before != after then 1 else 0
  }

  /** How many status changes a message has left. */
  function Budget(rows: seq<Row>, ids: set<string>, id: string): nat {
    var i := Find(rows, id);
    if i < |rows| then Remaining(rows[i]) else if id in ids then 0 else 2 * MAX_ATTEMPTS
  }

  lemma MovesSpendBudget(rows: seq<Row>, ids: set<string>, rows': seq<Row>, ids': set<string>, id: string)
    requires Moves(rows, ids, rows', ids', id)
    ensures Budget(rows', ids', id) <= Budget(rows, ids, id)
    ensures StatusOf(rows, id) != {} && StatusOf(rows', id) != {} && StatusOf(rows, id) != StatusOf(rows', id) ==>
              Budget(rows', ids', id) < Budget(rows, ids, id)
  {
  }

  lemma {:induction false} ChangesWithinBudget(s: State, steps: seq<Step>, id: string)
    requires Invariant(s) && Feasible(s, steps) && NotRequeued(steps, id)
    ensures StatusChanges(s, steps, id) <= Budget(s.rows, s.ids, id)
    decreases |steps|
  {
    if steps != [] {
      StepKeeps(s, steps[0]);
      assert forall k :: 0 <= k < |steps[1..]| ==> steps[1..][k] == steps[k + 1];
      MovesOf(s, steps[0], id);
      MovesSpendBudget(s.rows, s.ids, Apply(s, steps[0]).rows, Apply(s, steps[0]).ids, id);
      ChangesWithinBudget(Apply(s, steps[0]), steps[1..], id);
    }
  }

  lemma InitialBudget(s: State, id: string)
    requires Initial(s)
    ensures Budget(s.rows, s.ids, id) <= 2 * MAX_ATTEMPTS
  {
    var i := Find(s.rows, id);
    if i < |s.rows| {
      assert s.rows[i] in s.rows;
    }
  }

  /** Over any run that does not queue it again, a message changes its status at most six times. */
  lemma AtMostSixStatusChanges(s: State, steps: seq<Step>, id: string)
    requires Initial(s) && Feasible(s, steps) && NotRequeued(steps, id)
    ensures StatusChanges(s, steps, id) <= 6
  {
    InitialInvariant(s);
    InitialBudget(s, id);
    ChangesWithinBudget(s, steps, id);
  }

  // ----- How often an id is sent that may be queued again -----

  /** How many more times an id can be handed out before it is queued again. */
  function Claims(rows: seq<Row>, ids: set<string>, id: string): nat {
    var i := Find(rows, id);
    if i < |rows| then RowClaims(rows[i]) else if id in ids then 0 else MAX_ATTEMPTS
  }

  /** The workers that were handed `id` and have not sent it yet. */
  ghost function Unsent(tasks: map<nat, Task>, id: string): set<nat> {
    set w | w in tasks && tasks[w].id == id && !tasks[w].sent
  }

  /** Sends of `id` so far, and those that are still possible. */
  ghost function Potential(s: State, id: string): nat {
    Sends(s.log, id) + |Unsent(s.tasks, id)| + Claims(s.rows, s.ids, id)
  }

  /** The step hands `id` out. */
  predicate HandsOut(s: State, step: Step, id: string) {
    step.Claiming? && AfterClaim(s.rows, step.world).1.Leased? && AfterClaim(s.rows, step.world).1.item.Entry?
    && AfterClaim(s.rows, step.world).1.item.message.id == id
  }

  lemma MovesKeepClaims(rows: seq<Row>, ids: set<string>, rows': seq<Row>, ids': set<string>, id: string)
    requires Moves(rows, ids, rows', ids', id)
    ensures Claims(rows', ids', id) <= Claims(rows, ids, id)
  {
  }

  /** Handing a message out uses up one of its claims. */
  lemma HandingOutClaims(rows: seq<Row>, ids: set<string>, w: World, id: string)
    requires DistinctIds(rows) && id in ids && (forall r :: r in rows && Waiting(r) ==> r.attempts < MAX_ATTEMPTS)
    requires AfterClaim(rows, w).1.Leased? && AfterClaim(rows, w).1.item.Entry? && AfterClaim(rows, w).1.item.message.id == id
    ensures Claims(AfterClaim(rows, w).0, ids, id) < Claims(rows, ids, id)
  {
    var k := Actionable(rows, w);
    var v := Decide(rows[k], w);
    VerdictEffect(rows[k], w);
    assert Find(rows, id) == k;
    assert rows[k] in rows;
    var rows' := Newest(rows[k := v.row]);
    var j := Find(rows', id);
    if j < |rows'| {
      RewrittenIsOne(rows, k, v.row, j);
    }
  }

  lemma ClaimsDecline(s: State, step: Step, id: string)
    requires Invariant(s) && Enabled(s, step) && !Renews(step, id)
    ensures Claims(Apply(s, step).rows, Apply(s, step).ids, id) + (if HandsOut(s, step, id) then 1 else 0) <= Claims(s.rows, s.ids, id)
  {
    if HandsOut(s, step, id) {
      ClaimedInStore(s, step, id);
      HandingOutClaims(s.rows, s.ids, step.world, id);
    } else {
      MovesOf(s, step, id);
      MovesKeepClaims(s.rows, s.ids, Apply(s, step).rows, Apply(s, step).ids, id);
    }
  }

  lemma ClaimedInStore(s: State, step: Step, id: string)
    requires Invariant(s) && HandsOut(s, step, id)
    ensures id in s.ids && forall r :: r in s.rows && Waiting(r) ==> r.attempts < MAX_ATTEMPTS
  {
    var k := Actionable(s.rows, step.world);
    VerdictEffect(s.rows[k], step.world);
    assert RowOk(s, s.rows[k]);
    forall r | r in s.rows && Waiting(r) ensures r.attempts < MAX_ATTEMPTS {
      assert RowOk(s, r);
    }
  }

  lemma UnsentStep(s: State, step: Step, id: string)
    requires Enabled(s, step)
    ensures |Unsent(Apply(s, step).tasks, id)| <= |Unsent(s.tasks, id)| + (if HandsOut(s, step, id) then 1 else 0)
    ensures step.SendingOut? && s.tasks[step.worker].id == id ==>
              |Unsent(Apply(s, step).tasks, id)| < |Unsent(s.tasks, id)|
  {
    var before, after := Unsent(s.tasks, id), Unsent(Apply(s, step).tasks, id);
    match step
    case Claiming(worker, world) =>
      if AfterClaim(s.rows, world).1.Leased? {
        ClaimedItem(s.rows, world);
      }
      assert after <= before + {worker};
      Smaller(after, before + {worker});
      if !HandsOut(s, step, id) {
        assert after <= before;
        Smaller(after, before);
      }
    case SendingOut(worker) =>
      assert after <= before - {worker};
      Smaller(after, before - {worker});
    case Finishing(worker, _) =>
      assert after <= before;
      Smaller(after, before);
    case Crashing(worker) =>
      assert after <= before;
      Smaller(after, before);
    case _ =>
  }

  lemma {:induction false} Smaller<T>(a: set<T>, b: set<T>)
    requires a <= b
    ensures |a| <= |b|
  {
    assert |b - a| + |a * b| == |b|;
    assert a * b == a;
  }

  lemma StepPotential(s: State, step: Step, id: string)
    requires Invariant(s) && Enabled(s, step)
    ensures Potential(Apply(s, step), id) <= Potential(s, id) + if Renews(step, id) then MAX_ATTEMPTS else 0
  {
    UnsentStep(s, step, id);
    if !Renews(step, id) {
      ClaimsDecline(s, step, id);
    }
    match step
    case SendingOut(w) => LogGrows(s.log, Delivered(s.tasks[w].id, s.tasks[w].lease), id);
    case Finishing(w, receipt) => LogGrows(s.log, Receipted(s.tasks[w].id, s.tasks[w].lease, receipt.success), id);
    case _ =>
  }

  /** How often a run queues `id` again. */
  function Renewals(steps: seq<Step>, id: string): nat {
    if steps == [] then 0 else Renewals(steps[1..], id) + if Renews(steps[0], id) then 1 else 0
  }

  lemma {:induction false} RunPotential(s: State, steps: seq<Step>, id: string)
    requires Invariant(s) && Feasible(s, steps)
    ensures Potential(Run(s, steps), id) <= Potential(s, id) + MAX_ATTEMPTS * Renewals(steps, id)
    decreases |steps|
  {
    if steps != [] {
      StepKeeps(s, steps[0]);
      StepPotential(s, steps[0], id);
      RunPotential(Apply(s, steps[0]), steps[1..], id);
    }
  }

  /** Over any run at all, a message is sent at most three times for each time that it was queued. */
  lemma AtMostThreeSendsPerQueueing(s: State, steps: seq<Step>, id: string)
    requires Initial(s) && Feasible(s, steps)
    ensures Sends(Run(s, steps).log, id) <= 3 * (1 + Renewals(steps, id))
  {
    InitialInvariant(s);
    assert Unsent(s.tasks, id) == {};
    RunPotential(s, steps, id);
  }

  lemma {:induction false} NoRenewals(steps: seq<Step>, id: string)
    requires NotRequeued(steps, id)
    ensures Renewals(steps, id) == 0
  {
    if steps != [] {
      assert forall k :: 0 <= k < |steps[1..]| ==> steps[1..][k] == steps[k + 1];
      NoRenewals(steps[1..], id);
    }
  }

  /** Over any run that does not queue it again, a message is sent at most three times. */
  lemma AtMostThreeSends(s: State, steps: seq<Step>, id: string)
    requires Initial(s) && Feasible(s, steps) && NotRequeued(steps, id)
    ensures Sends(Run(s, steps).log, id) <= 3
  {
    AtMostThreeSendsPerQueueing(s, steps, id);
    NoRenewals(steps, id);
  }

  /** The row that a step is about: the first actionable one, or the one with the id in question. */
  function RowOf(s: State, step: Step): nat
    requires Enabled(s, step)
  {
    match step
    case Claiming(_, world) => Actionable(s.rows, world)
    case Finishing(worker, _) => Find(s.rows, s.tasks[worker].id)
    case Withdrawing(id, _) => Find(s.rows, id)
    case Requeueing(message, _) => Find(s.rows, message.id)
    case _ => |s.rows|
  }

  /** The step adds a row. */
  predicate Appends(s: State, step: Step) {
    step.Queueing? || (step.Requeueing? && Find(s.rows, step.message.id) == |s.rows|)
  }

  /**
    While the file is not over its capacity, a step that adds no row loses none and changes at most the row that it is
    about; only queueing again changes the message.
   */
  lemma StepConserves(s: State, step: Step)
    requires Enabled(s, step) && |s.rows| <= CAPACITY && !Appends(s, step)
    ensures var rows', i := Apply(s, step).rows, RowOf(s, step);
            || rows' == s.rows
            || (OneRowChanged(s.rows, rows', i) && SameId(s.rows[i], rows'[i])
                && (!step.Requeueing? ==> SameMessage(s.rows[i], rows'[i])))
  {
    match step
    case Claiming(_, world) => ClaimConserves(s.rows, world);
    case Finishing(worker, receipt) => FinishConserves(s.rows, s.tasks[worker].id, s.tasks[worker].lease, receipt);
    case Withdrawing(id, to) => RewriteConserves(s.rows, Find(s.rows, id), s.rows[Find(s.rows, id)].(status := to));
    case Requeueing(message, _) =>
      RewriteConserves(s.rows, Find(s.rows, message.id), Renewed(s.rows[Find(s.rows, message.id)], message));
    case _ =>
  }

  lemma RewriteConserves(rows: seq<Row>, i: nat, r: Row)
    requires |rows| <= CAPACITY && i < |rows|
    ensures OneRowChanged(rows, Newest(rows[i := r]), i) && Newest(rows[i := r])[i] == r
  {
  }

  /** The state after the first step, from which every continuation runs on. */
  lemma Next(s: State, step: Step, rest: seq<Step>) returns (next: State)
    requires Feasible(s, [step] + rest)
    ensures forall more :: Feasible(next, more) ==> Feasible(s, [step] + more) && Run(s, [step] + more) == Run(next, more)
    ensures Feasible(next, rest) && Run(s, [step] + rest) == Run(next, rest)
  {
    next := Apply(s, step);
    assert ([step] + rest)[1..] == rest;
    forall more | Feasible(next, more) ensures Feasible(s, [step] + more) && Run(s, [step] + more) == Run(next, more) {
      assert ([step] + more)[1..] == more;
    }
  }

  lemma SplitFirst(first: seq<Step>, second: seq<Step>)
    requires first != []
    ensures first == [first[0]] + first[1..] && first + second == [first[0]] + (first[1..] + second)
  {
  }

  lemma {:induction false} RunConcat(s: State, first: seq<Step>, second: seq<Step>)
    requires Feasible(s, first) && Feasible(Run(s, first), second)
    ensures Feasible(s, first + second) && Run(s, first + second) == Run(Run(s, first), second)
    decreases first
  {
    if first == [] {
      assert first + second == second;
    } else {
      SplitFirst(first, second);
      var next := Next(s, first[0], first[1..]);
      RunConcat(next, first[1..], second);
    }
  }

  /** The protocol steps of one pass of a delivery round. */
  function Pass(s: State, worker: nat, world: World, receipt: Receipt): seq<Step> {
    if AfterClaim(s.rows, world).1.Leased? then [Claiming(worker, world), SendingOut(worker), Finishing(worker, receipt)]
    else [Claiming(worker, world)]
  }

  function AfterPass(rows: seq<Row>, world: World, receipt: Receipt): seq<Row> {
    var (claimed, claim) := AfterClaim(rows, world);
    if claim.Leased? && claim.item.Entry? then AfterFinish(claimed, claim.item.message.id, world.lease, receipt) else claimed
  }

  lemma PassIsRun(s: State, worker: nat, world: World, receipt: Receipt)
    requires worker !in s.tasks && world.lease !in s.leases
    ensures Feasible(s, Pass(s, worker, world, receipt))
    ensures var s' := Run(s, Pass(s, worker, world, receipt));
            s'.rows == AfterPass(s.rows, world, receipt) && s'.leases == s.leases + {world.lease} && worker !in s'.tasks
  {
    ClaimOnce(s, worker, world);
    if AfterClaim(s.rows, world).1.Leased? {
      var claiming, rest := [Claiming(worker, world)], [SendingOut(worker), Finishing(worker, receipt)];
      SendAndFinish(Run(s, claiming), worker, receipt);
      RunConcat(s, claiming, rest);
      assert claiming + rest == Pass(s, worker, world, receipt);
    }
  }

  lemma ClaimOnce(s: State, worker: nat, world: World)
    requires worker !in s.tasks && world.lease !in s.leases
    ensures var (rows, claim) := AfterClaim(s.rows, world);
            && Feasible(s, [Claiming(worker, world)])
            && var s' := Run(s, [Claiming(worker, world)]);
            && s'.rows == rows && s'.leases == s.leases + {world.lease}
            && (worker in s'.tasks <==> claim.Leased?)
            && (claim.Leased? ==> claim.item.Entry? && s'.tasks[worker] == Task(claim.item.message.id, world.lease, false))
  {
    if AfterClaim(s.rows, world).1.Leased? {
      ClaimedItem(s.rows, world);
    }
    var s' := Apply(s, Claiming(worker, world));
    assert Run(s', []) == s';
  }

  lemma SendAndFinish(s: State, worker: nat, receipt: Receipt)
    requires worker in s.tasks && !s.tasks[worker].sent
    ensures Feasible(s, [SendingOut(worker), Finishing(worker, receipt)])
    ensures var s' := Run(s, [SendingOut(worker), Finishing(worker, receipt)]);
            && s'.rows == AfterFinish(s.rows, s.tasks[worker].id, s.tasks[worker].lease, receipt)
            && s'.leases == s.leases && worker !in s'.tasks
  {
    var steps := [SendingOut(worker), Finishing(worker, receipt)];
    var s1 := Apply(s, steps[0]);
    var s2 := Apply(s1, Finishing(worker, receipt));
    assert steps[1..] == [Finishing(worker, receipt)];
    assert Run(s1, [Finishing(worker, receipt)]) == Run(s2, []) == s2;
  }

  lemma ClaimedItem(rows: seq<Row>, w: World)
    requires AfterClaim(rows, w).1.Leased?
    ensures AfterClaim(rows, w).1.item.Entry? && AfterClaim(rows, w).1.item.leaseId == w.lease
  {
    VerdictEffect(rows[Actionable(rows, w)], w);
  }

  lemma PassExtends(s: State, steps: seq<Step>, worker: nat, world: World, receipt: Receipt)
    requires Feasible(s, steps) && worker !in Run(s, steps).tasks && world.lease !in Run(s, steps).leases
    ensures var longer := steps + Pass(Run(s, steps), worker, world, receipt);
            && Feasible(s, longer) && worker !in Run(s, longer).tasks
            && Run(s, longer).rows == AfterPass(Run(s, steps).rows, world, receipt)
            && Run(s, longer).leases == Run(s, steps).leases + {world.lease}
  {
    PassIsRun(Run(s, steps), worker, world, receipt);
    RunConcat(s, steps, Pass(Run(s, steps), worker, world, receipt));
  }

  predicate Idle(rows: seq<Row>, world: World) {
    AfterClaim(rows, world).1.Nothing?
  }

  /** One pass: claim, and if a row was handed out, send it and record the receipt. */
  method DrainOne(file: OutboxFile, world: World, receipt: Receipt) returns (found: bool)
    modifies file
    ensures file.rows == AfterPass(old(file.rows), world, receipt)
    ensures found <==> !Idle(old(file.rows), world)
    ensures !found ==> file.rows == old(file.rows)
  {
    ghost var before := file.rows;
    var claim := file.ClaimNext(world);
    if claim.Leased? {
      ClaimedItem(before, world);
      var _ := file.Finish(claim.item, receipt);
    }
    found := !claim.Nothing?;
  }

  const BATCH := 50

  /** What the passes of a round read at their claims and get from their sends. */
  datatype Outlook = Outlook(world: World, receipt: Receipt)

  /** The file after the first passes of a round. */
  ghost function AfterPasses(rows: seq<Row>, passes: seq<Outlook>): seq<Row> {
    if passes == [] then rows
    else
      var last := |passes| - 1;
      AfterPass(AfterPasses(rows, passes[..last]), passes[last].world, passes[last].receipt)
  }

  /** The leases that passes draw are new and all different. */
  ghost predicate FreshLeases(leases: set<string>, passes: seq<Outlook>) {
    && (forall i :: 0 <= i < |passes| ==> passes[i].world.lease !in leases)
    && forall i, j :: 0 <= i < j < |passes| ==> passes[i].world.lease != passes[j].world.lease
  }

  function LeasesOf(passes: seq<Outlook>): set<string> {
    set i | 0 <= i < |passes| :: passes[i].world.lease
  }

  /** A round by one worker: a run of its steps that leads to these rows and has drawn these leases. */
  ghost predicate Round(s: State, steps: seq<Step>, worker: nat, rows: seq<Row>, leases: set<string>) {
    Feasible(s, steps) && Run(s, steps).rows == rows && worker !in Run(s, steps).tasks && Run(s, steps).leases == s.leases + leases
  }

  lemma RoundNext(s: State, steps: seq<Step>, worker: nat, rows: seq<Row>, leases: set<string>, world: World, receipt: Receipt)
    returns (longer: seq<Step>)
    requires Round(s, steps, worker, rows, leases) && world.lease !in s.leases + leases
    ensures Round(s, longer, worker, AfterPass(rows, world, receipt), leases + {world.lease})
  {
    PassExtends(s, steps, worker, world, receipt);
    longer := steps + Pass(Run(s, steps), worker, world, receipt);
  }

  lemma LastLease(leases: set<string>, passes: seq<Outlook>)
    requires passes != [] && FreshLeases(leases, passes)
    ensures var last := |passes| - 1;
            && FreshLeases(leases, passes[..last]) && passes[last].world.lease !in leases + LeasesOf(passes[..last])
            && LeasesOf(passes) == LeasesOf(passes[..last]) + {passes[last].world.lease}
  {
  }

  /** The passes of one worker are a run. */
  lemma {:induction false} RoundIsRun(s: State, worker: nat, passes: seq<Outlook>) returns (steps: seq<Step>)
    requires worker !in s.tasks && FreshLeases(s.leases, passes)
    ensures Round(s, steps, worker, AfterPasses(s.rows, passes), LeasesOf(passes))
    decreases |passes|
  {
    steps := [];
    if passes != [] {
      var last := |passes| - 1;
      LastLease(s.leases, passes);
      steps := RoundIsRun(s, worker, passes[..last]);
      steps := RoundNext(s, steps, worker, AfterPasses(s.rows, passes[..last]), LeasesOf(passes[..last]), passes[last].world, passes[last].receipt);
    }
  }

  /** Pass `i` of a round found something to do. */
  ghost predicate FoundWork(first: seq<Row>, passes: seq<Outlook>, i: nat)
    requires i < |passes|
  {
    !Idle(AfterPasses(first, passes[..i]), passes[i].world)
  }

  /** `rows` is the file after the first passes, each of which found something to do. */
  ghost predicate Passed(first: seq<Row>, passes: seq<Outlook>, n: nat, rows: seq<Row>) {
    n <= |passes| && rows == AfterPasses(first, passes[..n]) && forall i :: 0 <= i < n ==> FoundWork(first, passes, i)
  }

  lemma PassedNext(first: seq<Row>, passes: seq<Outlook>, n: nat, rows: seq<Row>)
    requires n < |passes| && Passed(first, passes, n, rows) && !Idle(rows, passes[n].world)
    ensures Passed(first, passes, n + 1, AfterPass(rows, passes[n].world, passes[n].receipt))
  {
    assert passes[..n + 1][..n] == passes[..n];
  }

  /**
    One worker's delivery round: at most fifty passes, each of which finds something to do, until one finds nothing. The
    round is a run of protocol steps of this worker.
   */
  method Drain(file: OutboxFile, worker: nat, ghost s: State, passes: seq<Outlook>) returns (processed: nat, ghost steps: seq<Step>)
    requires file.rows == s.rows && worker !in s.tasks && |passes| == BATCH && FreshLeases(s.leases, passes)
    modifies file
    ensures Feasible(s, steps) && Run(s, steps).rows == file.rows && worker !in Run(s, steps).tasks
    ensures processed <= 50 == |passes|
    ensures file.rows == AfterPasses(old(file.rows), passes[..processed])
    ensures forall i :: 0 <= i < processed ==> FoundWork(old(file.rows), passes, i)
    ensures processed < 50 ==> Idle(file.rows, passes[processed].world)
  {
    ghost var first := file.rows;
    processed := 0;
    var found := true;
    while processed < BATCH && found
      invariant processed <= BATCH && Passed(first, passes, processed, file.rows)
      invariant !found ==> processed < BATCH && Idle(file.rows, passes[processed].world)
      decreases BATCH - processed, found
    {
      ghost var before := file.rows;
      found := DrainOne(file, passes[processed].world, passes[processed].receipt);
      if found {
        PassedNext(first, passes, processed, before);
        processed := processed + 1;
      }
    }
    steps := RoundIsRun(s, worker, passes[..processed]);
  }
}

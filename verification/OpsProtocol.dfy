/**
  Any number of operations workers on one replay database: look-up, reservation, execution, dispatch and finish are
  separate steps, a worker may die between any two of them, and a comment may read differently at every poll.
 */
module OpsProtocol {
  import opened OpsWorker

  /** What a worker is doing about a comment `k` and the command `c` that it read there. */
  datatype Phase =
    | Looked(k: int, c: Command)
    | Reserved(k: int, c: Command)
    | Started(k: int, c: Command)
    | Ready(k: int, c: Command, report: Report)
    | Sent(k: int, c: Command, report: Report)
    | Broken(k: int, c: Command, stage: Stage)

  type WorkerId = nat

  datatype State = State(l: Ledger, workers: map<WorkerId, Phase>)

  datatype Step =
    | Look(w: WorkerId, k: int, c: Command)
    | Reserve(w: WorkerId)
    | Start(w: WorkerId)
    | Exit(w: WorkerId, ran: Ran)
    | Post(w: WorkerId, sent: bool)
    | Finish(w: WorkerId)
    | Die(w: WorkerId)

  predicate Enabled(s: State, step: Step) {
    if step.Look? then step.w !in s.workers
    else
      step.w in s.workers &&
      var p := s.workers[step.w];
      match step
      case Reserve(_) => p.Looked?
      case Start(_) => p.Reserved?
      case Exit(_, _) => p.Started?
      case Post(_, _) => p.Ready?
      case Finish(_) => p.Sent? || p.Broken?
      case _ => true
  }

  function Reached(s: State, w: WorkerId, p: Phase): State {
    s.(workers := s.workers[w := p])
  }

  /** One step. A worker that gives up, dies or finishes is forgotten. */
  function Apply(s: State, step: Step): State
    requires Enabled(s, step)
  {
    match step
    case Look(w, k, c) => if Known(s.l.rows, k, c.id) then s else Reached(s, w, Looked(k, c))
    case Reserve(w) =>
      var p := s.workers[w];
      if Known(s.l.rows, p.k, p.c.id) then s.(workers := s.workers - {w})
      else
        var row := Row(p.c.id, p.c.pr, p.c.sha, Running);
        Reached(s.(l := s.l.(rows := s.l.rows[p.k := row])), w, Reserved(p.k, p.c))
    case Start(w) =>
      var p := s.workers[w];
      Reached(s.(l := s.l.(executed := s.l.executed + [(p.k, p.c)])), w, Started(p.k, p.c))
    case Exit(w, ran) =>
      var p := s.workers[w];
      var checked := CheckReport(p.c, ran);
      Reached(s, w, if checked.Accepted? then Ready(p.k, p.c, checked.report) else Broken(p.k, p.c, checked.stage))
    case Post(w, sent) =>
      var p := s.workers[w];
      Reached(s.(l := s.l.(posted := s.l.posted + [(p.k, p.report)])), w,
              if sent then Sent(p.k, p.c, p.report) else Broken(p.k, p.c, Posting))
    case Finish(w) =>
      var p := s.workers[w];
      var status := if p.Sent? then Reported(p.report.result) else Failed(p.stage);
      State(s.l.(rows := Finished(s.l.rows, p.k, status)), s.workers - {w})
    case Die(w) => s.(workers := s.workers - {w})
  }

  predicate Feasible(s: State, steps: seq<Step>)
    decreases |steps|
  {
    steps == [] || (Enabled(s, steps[0]) && Feasible(Apply(s, steps[0]), steps[1..]))
  }

  function Run(s: State, steps: seq<Step>): State
    requires Feasible(s, steps)
    decreases |steps|
  {
    if steps == [] then s else Run(Apply(s, steps[0]), steps[1..])
  }

  const EMPTY := State(Ledger(map[], [], []), map[])

  // ----- The invariant -----

  ghost predicate UniqueIds(rows: map<int, Row>) {
    forall j, k :: j in rows && k in rows && rows[j].id == rows[k].id ==> j == k
  }

  /** What was executed under a comment is what its row was reserved for. */
  ghost predicate ExecutedOk(l: Ledger) {
    && (forall k, c :: (k, c) in l.executed ==> k in l.rows && RowOf(l.rows[k], c))
    && (forall i, j :: 0 <= i < j < |l.executed| ==> l.executed[i].0 != l.executed[j].0)
  }

  ghost predicate PostedFor(l: Ledger, k: int, r: Report) {
    exists c :: (k, c) in l.executed && Matches(r, c) && !r.codeChanged && !r.productionChanged
  }

  ghost predicate PostedOk(l: Ledger) {
    && (forall k, r :: (k, r) in l.posted ==> PostedFor(l, k, r))
    && (forall i, j :: 0 <= i < j < |l.posted| ==> l.posted[i].0 != l.posted[j].0)
  }

  predicate Executed(l: Ledger, k: int) {
    exists e :: e in l.executed && e.0 == k
  }

  predicate WasPosted(l: Ledger, k: int) {
    exists e :: e in l.posted && e.0 == k
  }

  /** A finished row says what happened: reported with the result that was posted, or failed before or while posting. */
  ghost predicate StatusOk(l: Ledger, k: int)
    requires k in l.rows
  {
    match l.rows[k].status
    case Running => true
    case Reported(result) => Executed(l, k) && exists r :: (k, r) in l.posted && r.result == result
    case Failed(stage) => Executed(l, k) && (WasPosted(l, k) <==> stage.Posting?)
  }

  predicate Holds(p: Phase, k: int) {
    !p.Looked? && p.k == k
  }

  /** A worker past the reservation owns a running row and knows how far its command got. */
  ghost predicate PhaseOk(l: Ledger, p: Phase) {
    p.Looked? ||
    (&& p.k in l.rows && RowOf(l.rows[p.k], p.c) && l.rows[p.k].status.Running?
     && (if p.Reserved? then !Executed(l, p.k) else (p.k, p.c) in l.executed)
     && (WasPosted(l, p.k) <==> p.Sent? || (p.Broken? && p.stage.Posting?))
     && (p.Ready? ==> Matches(p.report, p.c) && !p.report.codeChanged && !p.report.productionChanged)
     && (p.Sent? ==> (p.k, p.report) in l.posted))
  }

  ghost predicate Owners(workers: map<WorkerId, Phase>) {
    forall v, w, k :: v in workers && w in workers && Holds(workers[v], k) && Holds(workers[w], k) ==> v == w
  }

  ghost predicate LedgerOk(l: Ledger) {
    && UniqueIds(l.rows) && ExecutedOk(l) && PostedOk(l)
    && forall k :: k in l.rows ==> StatusOk(l, k)
  }

  ghost predicate Invariant(s: State) {
    && LedgerOk(s.l) && Owners(s.workers)
    && forall w :: w in s.workers ==> PhaseOk(s.l, s.workers[w])
  }

  // ----- What each change of the ledger keeps -----

  /** A phase that concerns another comment. */
  predicate Elsewhere(p: Phase, k: int) {
    p.Looked? || p.k != k
  }

  lemma ReserveKeeps(l: Ledger, k: int, row: Row)
    requires LedgerOk(l) && !Known(l.rows, k, row.id) && row.status.Running?
    ensures var l' := l.(rows := l.rows[k := row]);
            LedgerOk(l') && !Executed(l', k) && !WasPosted(l', k) && forall p :: PhaseOk(l, p) ==> PhaseOk(l', p)
  {
    var l' := l.(rows := l.rows[k := row]);
    forall j, c | (j, c) in l.executed ensures j in l.rows {
      assert ExecutedOk(l);
    }
    assert !Executed(l, k) by {
      forall e | e in l.executed ensures e.0 != k {
        assert e == (e.0, e.1);
      }
    }
    assert forall e :: e in l.posted ==> PostedFor(l, e.0, e.1);
    forall j, r | (j, r) in l'.posted ensures PostedFor(l', j, r) {
      assert PostedFor(l, j, r);
    }
    forall j | j in l'.rows ensures StatusOk(l', j) {
      if j != k {
        assert StatusOk(l, j);
      }
    }
  }

  lemma StartKeeps(l: Ledger, k: int, c: Command)
    requires LedgerOk(l) && k in l.rows && RowOf(l.rows[k], c) && l.rows[k].status.Running? && !Executed(l, k)
    ensures var l' := l.(executed := l.executed + [(k, c)]);
            LedgerOk(l') && (forall p :: PhaseOk(l, p) && Elsewhere(p, k) ==> PhaseOk(l', p))
  {
    var l' := l.(executed := l.executed + [(k, c)]);
    assert forall e :: e in l'.executed <==> e in l.executed || e == (k, c);
    forall i, j | 0 <= i < j < |l'.executed| ensures l'.executed[i].0 != l'.executed[j].0 {
      assert l'.executed[i] in l.executed;
    }
    forall j, r | (j, r) in l'.posted ensures PostedFor(l', j, r) {
      assert PostedFor(l, j, r);
      var d :| (j, d) in l.executed && Matches(r, d) && !r.codeChanged && !r.productionChanged;
      assert (j, d) in l'.executed;
    }
    assert forall j :: Executed(l, j) ==> Executed(l', j);
    forall j | j in l'.rows ensures StatusOk(l', j) {
      assert StatusOk(l, j);
    }
  }

  lemma PostKeeps(l: Ledger, k: int, c: Command, r: Report)
    requires LedgerOk(l) && k in l.rows && l.rows[k].status.Running? && (k, c) in l.executed && !WasPosted(l, k)
    requires Matches(r, c) && !r.codeChanged && !r.productionChanged
    ensures var l' := l.(posted := l.posted + [(k, r)]);
            LedgerOk(l') && WasPosted(l', k) && (forall p :: PhaseOk(l, p) && Elsewhere(p, k) ==> PhaseOk(l', p))
  {
    var l' := l.(posted := l.posted + [(k, r)]);
    assert forall e :: e in l'.posted <==> e in l.posted || e == (k, r);
    forall i, j | 0 <= i < j < |l'.posted| ensures l'.posted[i].0 != l'.posted[j].0 {
      assert l'.posted[i] in l.posted;
    }
    forall j, t | (j, t) in l'.posted ensures PostedFor(l', j, t) {
      if (j, t) in l.posted {
        assert PostedFor(l, j, t);
      }
    }
    assert (k, r) in l'.posted;
    forall j | j in l'.rows ensures StatusOk(l', j) {
      assert StatusOk(l, j);
      if j != k {
        assert WasPosted(l', j) <==> WasPosted(l, j);
      }
    }
  }

  lemma FinishKeeps(l: Ledger, p: Phase)
    requires LedgerOk(l) && PhaseOk(l, p) && (p.Sent? || p.Broken?)
    ensures var l' := l.(rows := Finished(l.rows, p.k, if p.Sent? then Reported(p.report.result) else Failed(p.stage)));
            LedgerOk(l') && (forall q :: PhaseOk(l, q) && Elsewhere(q, p.k) ==> PhaseOk(l', q))
  {
    var l' := l.(rows := Finished(l.rows, p.k, if p.Sent? then Reported(p.report.result) else Failed(p.stage)));
    forall j, r | (j, r) in l'.posted ensures PostedFor(l', j, r) {
      assert PostedFor(l, j, r);
    }
    forall j | j in l'.rows ensures StatusOk(l', j) {
      assert StatusOk(l, j);
      assert Executed(l', j) <==> Executed(l, j);
      assert WasPosted(l', j) <==> WasPosted(l, j);
    }
  }

  /** Another worker past the reservation has another comment. */
  lemma OthersElsewhere(s: State, w: WorkerId)
    requires Owners(s.workers) && w in s.workers && !s.workers[w].Looked?
    ensures forall v :: v in s.workers && v != w ==> Elsewhere(s.workers[v], s.workers[w].k)
  {
    forall v | v in s.workers && v != w ensures Elsewhere(s.workers[v], s.workers[w].k) {
      assert Holds(s.workers[w], s.workers[w].k);
      assert !Holds(s.workers[v], s.workers[w].k);
    }
  }

  lemma StepKeeps(s: State, step: Step)
    requires Invariant(s) && Enabled(s, step)
    ensures Invariant(Apply(s, step))
  {
    if !step.Look? && !s.workers[step.w].Looked? {
      OthersElsewhere(s, step.w);
    }
    match step
    case Look(_, _, _) =>
    case Reserve(w) => ReserveStepKeeps(s, w);
    case Start(w) => StartKeeps(s.l, s.workers[w].k, s.workers[w].c);
    case Exit(w, ran) =>
    case Post(w, sent) => PostKeeps(s.l, s.workers[w].k, s.workers[w].c, s.workers[w].report);
    case Finish(w) => FinishKeeps(s.l, s.workers[w]);
    case Die(_) =>
  }

  lemma ReserveStepKeeps(s: State, w: WorkerId)
    requires Invariant(s) && Enabled(s, Reserve(w))
    ensures Invariant(Apply(s, Reserve(w)))
  {
    var p := s.workers[w];
    if !Known(s.l.rows, p.k, p.c.id) {
      ReserveKeeps(s.l, p.k, Row(p.c.id, p.c.pr, p.c.sha, Running));
      forall v | v in s.workers ensures !Holds(s.workers[v], p.k) {
        assert PhaseOk(s.l, s.workers[v]);
      }
    }
  }

  lemma {:induction false} RunKeeps(s: State, steps: seq<Step>)
    requires Invariant(s) && Feasible(s, steps)
    ensures Invariant(Run(s, steps))
    decreases |steps|
  {
    if steps != [] {
      StepKeeps(s, steps[0]);
      RunKeeps(Apply(s, steps[0]), steps[1..]);
    }
  }

  // ----- Main results -----

  /** Over any run the executor is started at most once for a comment and at most once for a command id. */
  lemma ExecutedAtMostOnce(steps: seq<Step>)
    requires Feasible(EMPTY, steps)
    ensures var e := Run(EMPTY, steps).l.executed;
            forall i, j :: 0 <= i < j < |e| ==> e[i].0 != e[j].0 && e[i].1.id != e[j].1.id
  {
    RunKeeps(EMPTY, steps);
    var l := Run(EMPTY, steps).l;
    forall i, j | 0 <= i < j < |l.executed| ensures l.executed[i].1.id != l.executed[j].1.id {
      var a, b := l.executed[i], l.executed[j];
      assert (a.0, a.1) in l.executed && (b.0, b.1) in l.executed;
    }
  }

  predicate ReservedFor(rows: map<int, Row>, k: int, r: Report) {
    k in rows && rows[k].id == r.command && rows[k].pr == r.pr && rows[k].sha == r.sha
  }

  /** Every dispatched report is about a command that was reserved under its comment, and each command has at most one. */
  lemma PostedMatchesReserved(steps: seq<Step>)
    requires Feasible(EMPTY, steps)
    ensures var l := Run(EMPTY, steps).l;
            && (forall k, r :: (k, r) in l.posted ==> PostedFor(l, k, r) && ReservedFor(l.rows, k, r))
            && (forall i, j :: 0 <= i < j < |l.posted| ==> l.posted[i].1.command != l.posted[j].1.command)
  {
    RunKeeps(EMPTY, steps);
    var l := Run(EMPTY, steps).l;
    forall k, r | (k, r) in l.posted ensures ReservedFor(l.rows, k, r) {
      assert PostedFor(l, k, r);
      var c :| (k, c) in l.executed && Matches(r, c);
    }
    forall i, j | 0 <= i < j < |l.posted| ensures l.posted[i].1.command != l.posted[j].1.command {
      var a, b := l.posted[i], l.posted[j];
      assert (a.0, a.1) in l.posted && (b.0, b.1) in l.posted;
    }
  }

  /** The status of a row tells the truth about the outside. */
  lemma StatusIsTrue(steps: seq<Step>, k: int)
    requires Feasible(EMPTY, steps) && k in Run(EMPTY, steps).l.rows
    ensures StatusOk(Run(EMPTY, steps).l, k)
  {
    RunKeeps(EMPTY, steps);
  }

  /** A comment that has a row which no worker is busy with. */
  ghost predicate Abandoned(s: State, k: int) {
    k in s.l.rows && forall w :: w in s.workers ==> !Holds(s.workers[w], k)
  }

  /** The executions and dispatches of one comment. */
  function Of<T>(log: seq<(int, T)>, k: int): seq<(int, T)> {
    if log == [] then []
    else
      var n := |log| - 1;
      Of(log[..n], k) + if log[n].0 == k then [log[n]] else []
  }

  lemma OfOther<T>(log: seq<(int, T)>, e: (int, T), k: int)
    requires e.0 != k
    ensures Of(log + [e], k) == Of(log, k)
  {
    assert (log + [e])[..|log|] == log;
  }

  lemma AbandonedStep(s: State, step: Step, k: int)
    requires Enabled(s, step) && Abandoned(s, k)
    ensures var t := Apply(s, step);
            && Abandoned(t, k) && t.l.rows[k] == s.l.rows[k]
            && Of(t.l.executed, k) == Of(s.l.executed, k) && Of(t.l.posted, k) == Of(s.l.posted, k)
  {
    if !step.Look? {
      var p := s.workers[step.w];
      assert !Holds(p, k);
      if step.Start? {
        OfOther(s.l.executed, (p.k, p.c), k);
      } else if step.Post? {
        OfOther(s.l.posted, (p.k, p.report), k);
      }
    }
  }

  /**
    A row whose worker is gone stays as it is: left at RUNNING by a death it is RUNNING for ever, and its command is
    neither executed nor reported again.
   */
  lemma {:induction false} AbandonedForever(s: State, steps: seq<Step>, k: int)
    requires Feasible(s, steps) && Abandoned(s, k)
    ensures var t := Run(s, steps);
            && k in t.l.rows && t.l.rows[k] == s.l.rows[k]
            && Of(t.l.executed, k) == Of(s.l.executed, k) && Of(t.l.posted, k) == Of(s.l.posted, k)
    decreases |steps|
  {
    if steps != [] {
      AbandonedStep(s, steps[0], k);
      AbandonedForever(Apply(s, steps[0]), steps[1..], k);
    }
  }

  /** The death of a worker abandons its row. */
  lemma DeathAbandons(s: State, w: WorkerId)
    requires Invariant(s) && w in s.workers && !s.workers[w].Looked?
    ensures var k := s.workers[w].k;
            Abandoned(Apply(s, Die(w)), k) && Apply(s, Die(w)).l.rows[k].status.Running?
  {
    OthersElsewhere(s, w);
    assert PhaseOk(s.l, s.workers[w]);
  }

  /** A run after which the row of a comment is finished. */
  ghost predicate Finishes(s: State, steps: seq<Step>, k: int) {
    Feasible(s, steps) && k in Run(s, steps).l.rows && !Run(s, steps).l.rows[k].status.Running?
  }

  ghost predicate Owned(s: State, k: int) {
    exists w :: w in s.workers && Holds(s.workers[w], k)
  }

  function Distance(p: Phase): nat {
    match p
    case Looked(_, _) => 4
    case Reserved(_, _) => 3
    case Started(_, _) => 2
    case Ready(_, _, _) => 1
    case _ => 0
  }

  /** An owner that lives on finishes its row, whatever the others do later. */
  lemma {:induction false} OwnerFinishes(s: State, w: WorkerId) returns (steps: seq<Step>)
    requires w in s.workers && !s.workers[w].Looked? && s.workers[w].k in s.l.rows
    ensures Finishes(s, steps, s.workers[w].k)
    decreases Distance(s.workers[w])
  {
    var p := s.workers[w];
    var step := if p.Reserved? then Start(w) else if p.Started? then Exit(w, NoExit) else if p.Ready? then Post(w, false) else Finish(w);
    var s' := Apply(s, step);
    steps := [];
    if step.Finish? {
      assert Run(s', []) == s';
    } else {
      steps := OwnerFinishes(s', w);
    }
    Prepend(s, step, steps);
    steps := [step] + steps;
  }

  /** In every reachable state a running row can still be finished exactly if a living worker owns it. */
  lemma FinishedExactlyIfOwned(run: seq<Step>, k: int)
    requires Feasible(EMPTY, run)
    requires k in Run(EMPTY, run).l.rows && Run(EMPTY, run).l.rows[k].status.Running?
    ensures (exists steps :: Finishes(Run(EMPTY, run), steps, k)) <==> Owned(Run(EMPTY, run), k)
  {
    var s := Run(EMPTY, run);
    RunKeeps(EMPTY, run);
    if Owned(s, k) {
      var w :| w in s.workers && Holds(s.workers[w], k);
      assert PhaseOk(s.l, s.workers[w]);
      var steps := OwnerFinishes(s, w);
    } else {
      forall steps ensures !Finishes(s, steps, k) {
        if Feasible(s, steps) {
          AbandonedForever(s, steps, k);
        }
      }
    }
  }

  // ----- One worker alone -----

  /** The steps of one worker that handles a command from look-up to finish. */
  function Handling(w: WorkerId, k: int, c: Command, outside: Outside): seq<Step> {
    [Look(w, k, c)] + ([Reserve(w)] + Executing(w, c, outside))
  }

  function Executing(w: WorkerId, c: Command, outside: Outside): seq<Step> {
    [Start(w)] + ([Exit(w, outside.ran)] + Closing(w, c, outside))
  }

  function Closing(w: WorkerId, c: Command, outside: Outside): seq<Step> {
    if CheckReport(c, outside.ran).Accepted? then [Post(w, outside.sent)] + [Finish(w)] else [Finish(w)]
  }

  lemma Prepend(s: State, step: Step, rest: seq<Step>)
    requires Enabled(s, step) && Feasible(Apply(s, step), rest)
    ensures Feasible(s, [step] + rest) && Run(s, [step] + rest) == Run(Apply(s, step), rest)
  {
    assert ([step] + rest)[1..] == rest;
  }

  lemma ClosingIsRun(s: State, w: WorkerId, c: Command, outside: Outside)
    requires w in s.workers
    requires var p := s.workers[w]; var checked := CheckReport(c, outside.ran);
             p.c == c && p == if checked.Accepted? then Ready(p.k, c, checked.report) else Broken(p.k, c, checked.stage)
    ensures var steps := Closing(w, c, outside); var k := s.workers[w].k; var checked := CheckReport(c, outside.ran);
            && Feasible(s, steps)
            && Run(s, steps) == State(Ledger(Finished(s.l.rows, k, StatusAfter(c, outside)), s.l.executed,
                                             s.l.posted + if checked.Accepted? then [(k, checked.report)] else []),
                                      s.workers - {w})
  {
    if CheckReport(c, outside.ran).Accepted? {
      var s' := Apply(s, Post(w, outside.sent));
      Prepend(s', Finish(w), []);
      Prepend(s, Post(w, outside.sent), [Finish(w)]);
      assert s'.workers - {w} == s.workers - {w};
    } else {
      Prepend(s, Finish(w), []);
    }
  }

  lemma ExecutingIsRun(s: State, w: WorkerId, outside: Outside)
    requires w in s.workers && s.workers[w].Reserved?
    ensures var k, c := s.workers[w].k, s.workers[w].c;
            var steps := Executing(w, c, outside); var checked := CheckReport(c, outside.ran);
            && Feasible(s, steps)
            && Run(s, steps) == State(Ledger(Finished(s.l.rows, k, StatusAfter(c, outside)), s.l.executed + [(k, c)],
                                             s.l.posted + if checked.Accepted? then [(k, checked.report)] else []),
                                      s.workers - {w})
  {
    var c := s.workers[w].c;
    var started := Apply(s, Start(w));
    var exited := Apply(started, Exit(w, outside.ran));
    ClosingIsRun(exited, w, c, outside);
    Prepend(started, Exit(w, outside.ran), Closing(w, c, outside));
    Prepend(s, Start(w), [Exit(w, outside.ran)] + Closing(w, c, outside));
    assert exited.workers - {w} == s.workers - {w};
  }

  /** Handling an admitted comment without interference is a run of the protocol. */
  lemma HandledIsRun(s: State, w: WorkerId, comment: Comment, outside: Outside)
    requires w !in s.workers && Admitted(s.l.rows, comment, outside)
    ensures var steps := Handling(w, comment.id.value, comment.command.value, outside);
            Feasible(s, steps) && Run(s, steps) == State(Handled(s.l, comment, outside), s.workers)
  {
    var k, c := comment.id.value, comment.command.value;
    var looked := Apply(s, Look(w, k, c));
    var reserved := Apply(looked, Reserve(w));
    ExecutingIsRun(reserved, w, outside);
    Prepend(looked, Reserve(w), Executing(w, c, outside));
    Prepend(s, Look(w, k, c), [Reserve(w)] + Executing(w, c, outside));
    assert reserved.workers - {w} == s.workers;
  }
}

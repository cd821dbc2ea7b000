/**
  The operations worker (scripts/xiaoyou_ops_worker_v2.py): a replay store of reserved commands and one pass over
  the recent comments. What the outside answers (the trust check, the executor, the report intake) is a parameter.
 */
module OpsWorker {
  import opened Options

  datatype Action = ReadOnlyInspection | Verify

  datatype Command = Command(id: string, pr: int, sha: string, action: Action)

  datatype Report = Report(command: string, pr: int, sha: string, action: Action,
                           codeChanged: bool, productionChanged: bool, result: string)

  /** Where a command failed. */
  datatype Stage = Executor | ReportValidation | Posting

  datatype Status = Running | Reported(result: string) | Failed(stage: Stage)

  /** A row of the store; its key is the comment id. */
  datatype Row = Row(id: string, pr: int, sha: string, status: Status)

  /** What running the executor gave: no usable exit, an output that is no report, or a report. */
  datatype Ran = NoExit | Garbled | Printed(report: Report)

  datatype Checked = Accepted(report: Report) | Rejected(stage: Stage)

  predicate Matches(r: Report, c: Command) {
    r.command == c.id && r.pr == c.pr && r.sha == c.sha && r.action == c.action
  }

  predicate RowOf(row: Row, c: Command) {
    row.id == c.id && row.pr == c.pr && row.sha == c.sha
  }

  function CheckReport(c: Command, ran: Ran): (checked: Checked)
    ensures checked.Accepted? <==>
      ran.Printed? && Matches(ran.report, c) && !ran.report.codeChanged && !ran.report.productionChanged
    ensures checked.Accepted? ==> ran.Printed? && checked.report == ran.report
    ensures checked.Rejected? ==> (checked.stage.Executor? <==> ran.NoExit?) && !checked.stage.Posting?
  {
    match ran
    case NoExit => Rejected(Executor)
    case Garbled => Rejected(ReportValidation)
    case Printed(r) =>
      if r.command != c.id then Rejected(ReportValidation)
      else if r.pr != c.pr then Rejected(ReportValidation)
      else if r.sha != c.sha then Rejected(ReportValidation)
      else if r.action != c.action then Rejected(ReportValidation)
      else if r.codeChanged then Rejected(ReportValidation)
      else if r.productionChanged then Rejected(ReportValidation)
      else Accepted(r)
  }

  /** The row conflicts of the table: its primary key and its unique column. */
  predicate Known(rows: map<int, Row>, comment: int, id: string) {
    comment in rows || exists k :: k in rows && rows[k].id == id
  }

  /** The store together with what was done outside: executor starts and report dispatches, by comment. */
  datatype Ledger = Ledger(rows: map<int, Row>, executed: seq<(int, Command)>, posted: seq<(int, Report)>)

  class ReplayStore {
    var rows: map<int, Row>

    constructor (rows: map<int, Row>)
      ensures this.rows == rows
    {
      this.rows := rows;
    }

    method Seen(comment: int, id: string) returns (seen: bool)
      ensures seen <==> Known(rows, comment, id)
    {
      seen := comment in rows || exists k :: k in rows && rows[k].id == id;
    }

    /** Insertion fails when the comment or the command is already in the table. */
    method Reserve(comment: int, c: Command) returns (ok: bool)
      modifies this
      ensures ok <==> !Known(old(rows), comment, c.id)
      ensures rows == if ok then old(rows)[comment := Row(c.id, c.pr, c.sha, Running)] else old(rows)
    {
      if comment in rows || exists k :: k in rows && rows[k].id == c.id {
        return false;
      }
      rows := rows[comment := Row(c.id, c.pr, c.sha, Running)];
      return true;
    }

    method Finish(comment: int, status: Status)
      modifies this
      ensures rows == Finished(old(rows), comment, status)
    {
      if comment in rows {
        rows := rows[comment := rows[comment].(status := status)];
      }
    }
  }

  function Finished(rows: map<int, Row>, comment: int, status: Status): map<int, Row> {
    if comment in rows then rows[comment := rows[comment].(status := status)] else rows
  }

  /** A comment as listed: whether it carries the marker, whose it is, its id if that is a number, and its command if it parses. */
  datatype Comment = Comment(marked: bool, trusted: bool, id: Option<int>, command: Option<Command>)

  /** What the outside will answer while one comment is handled. */
  datatype Outside = Outside(trust: bool, ran: Ran, sent: bool)

  datatype Outcome = Ignored | Duplicate | Done | Error

  /** A comment whose command would be reserved. */
  predicate Admitted(rows: map<int, Row>, comment: Comment, outside: Outside) {
    && comment.marked && comment.trusted
    && comment.id.Some? && comment.id.value > 0 && comment.command.Some?
    && !Known(rows, comment.id.value, comment.command.value.id)
    && outside.trust
  }

  function StatusAfter(c: Command, outside: Outside): Status {
    var checked := CheckReport(c, outside.ran);
    if checked.Rejected? then Failed(checked.stage)
    else if !outside.sent then Failed(Posting)
    else Reported(checked.report.result)
  }

  /** What handling a comment leaves, when nobody else uses the store meanwhile. */
  function Handled(l: Ledger, comment: Comment, outside: Outside): Ledger {
    if !Admitted(l.rows, comment, outside) then l
    else
      var k, c := comment.id.value, comment.command.value;
      Ledger(l.rows[k := Row(c.id, c.pr, c.sha, StatusAfter(c, outside))], l.executed + [(k, c)],
             l.posted + if CheckReport(c, outside.ran).Accepted? then [(k, CheckReport(c, outside.ran).report)] else [])
  }

  function OutcomeOf(l: Ledger, comment: Comment, outside: Outside): Outcome {
    if !comment.marked || !comment.trusted then Ignored
    else if Admitted(l.rows, comment, outside) then
      if StatusAfter(comment.command.value, outside).Reported? then Done else Error
    else if comment.id.Some? && comment.id.value > 0 && comment.command.Some?
         && Known(l.rows, comment.id.value, comment.command.value.id) then Duplicate
    else Error
  }

  /** Once a command was taken up, neither its comment nor its id is taken up again, however it ended. */
  lemma ReplayIsIgnored(l: Ledger, comment: Comment, outside: Outside, again: Comment, outside': Outside)
    requires Admitted(l.rows, comment, outside)
    requires again.id == comment.id || (again.command.Some? && again.command.value.id == comment.command.value.id)
    ensures var l' := Handled(l, comment, outside);
            Handled(l', again, outside') == l' && !OutcomeOf(l', again, outside').Done?
  {
    var l' := Handled(l, comment, outside);
    var k := comment.id.value;
    assert k in l'.rows && l'.rows[k].id == comment.command.value.id;
  }

  function HandledAll(l: Ledger, comments: seq<Comment>, outside: seq<Outside>): Ledger
    requires |comments| == |outside|
  {
    if comments == [] then l
    else
      var n := |comments| - 1;
      Handled(HandledAll(l, comments[..n], outside[..n]), comments[n], outside[n])
  }

  datatype Counts = Counts(ignored: nat, duplicate: nat, reported: nat, failed: nat)

  function Add(counts: Counts, outcome: Outcome): Counts {
    match outcome
    case Ignored => counts.(ignored := counts.ignored + 1)
    case Duplicate => counts.(duplicate := counts.duplicate + 1)
    case Done => counts.(reported := counts.reported + 1)
    case Error => counts.(failed := counts.failed + 1)
  }

  /** What becomes of the comments of a pass, one after the other. */
  function Outcomes(l: Ledger, comments: seq<Comment>, outside: seq<Outside>): (outcomes: seq<Outcome>)
    requires |comments| == |outside|
    ensures |outcomes| == |comments|
  {
    if comments == [] then []
    else
      var n := |comments| - 1;
      Outcomes(l, comments[..n], outside[..n]) + [OutcomeOf(HandledAll(l, comments[..n], outside[..n]), comments[n], outside[n])]
  }

  /** Rows in a given state of completion. */
  ghost function ReportedRows(rows: map<int, Row>): set<int> {
    set k | k in rows && rows[k].status.Reported?
  }

  /** One worker process: its store, and what it did outside. */
  class Worker {
    const store: ReplayStore
    var executed: seq<(int, Command)>
    var posted: seq<(int, Report)>

    constructor (store: ReplayStore)
      ensures this.store == store && executed == [] && posted == []
    {
      this.store := store;
      executed, posted := [], [];
    }

    function Now(): Ledger
      reads this, store
    {
      Ledger(store.rows, executed, posted)
    }

    /** The executor's run: started, then checked. */
    method RunFixedExecutor(k: int, c: Command, ran: Ran) returns (checked: Checked)
      modifies this`executed
      ensures checked == CheckReport(c, ran)
      ensures executed == old(executed) + [(k, c)]
    {
      executed := executed + [(k, c)];
      checked := CheckReport(c, ran);
    }

    /** Without interference a reservation that follows an unsuccessful look-up never conflicts. */
    method ProcessComment(comment: Comment, outside: Outside) returns (outcome: Outcome)
      modifies this, store
      ensures Now() == Handled(old(Now()), comment, outside)
      ensures outcome == OutcomeOf(old(Now()), comment, outside)
    {
      if !comment.marked {
        return Ignored;
      }
      if !comment.trusted {
        return Ignored;
      }
      if comment.id.None? || comment.id.value <= 0 {
        return Error;
      }
      if comment.command.None? {
        return Error;
      }
      var k, c := comment.id.value, comment.command.value;
      var seen := store.Seen(k, c.id);
      if seen {
        return Duplicate;
      }
      if !outside.trust {
        return Error;
      }
      var ok := store.Reserve(k, c);
      assert ok;
      var checked := RunFixedExecutor(k, c, outside.ran);
      if checked.Rejected? {
        store.Finish(k, Failed(checked.stage));
        return Error;
      }
      posted := posted + [(k, checked.report)];
      if !outside.sent {
        store.Finish(k, Failed(Posting));
        return Error;
      }
      store.Finish(k, Reported(checked.report.result));
      return Done;
    }

    /** One pass: every comment is counted once, and each one counted as reported is a new row that says so. */
    method RunOnce(comments: seq<Comment>, outside: seq<Outside>) returns (counts: Counts)
      requires |comments| == |outside|
      modifies this, store
      ensures Now() == HandledAll(old(Now()), comments, outside)
      ensures var outcomes := multiset(Outcomes(old(Now()), comments, outside));
              counts == Counts(outcomes[Ignored], outcomes[Duplicate], outcomes[Done], outcomes[Error])
      ensures counts.ignored + counts.duplicate + counts.reported + counts.failed == |comments|
      ensures |ReportedRows(store.rows)| == |ReportedRows(old(store.rows))| + counts.reported
    {
      counts := Counts(0, 0, 0, 0);
      for i := 0 to |comments|
        invariant Passed(old(Now()), Now(), comments[..i], outside[..i], counts)
      {
        PassNext(old(Now()), Now(), comments, outside, i, counts);
        var outcome := ProcessComment(comments[i], outside[i]);
        counts := Add(counts, outcome);
      }
      assert comments[..|comments|] == comments && outside[..|comments|] == outside;
    }
  }

  ghost predicate CountsAll(counts: Counts, outcomes: seq<Outcome>) {
    var m := multiset(outcomes);
    counts == Counts(m[Ignored], m[Duplicate], m[Done], m[Error])
  }

  /** A pass over these comments has led from one ledger to the other, with these counts. */
  ghost predicate Passed(l: Ledger, now: Ledger, comments: seq<Comment>, outside: seq<Outside>, counts: Counts)
    requires |comments| == |outside|
  {
    && now == HandledAll(l, comments, outside) && CountsAll(counts, Outcomes(l, comments, outside))
    && counts.ignored + counts.duplicate + counts.reported + counts.failed == |comments|
    && |ReportedRows(now.rows)| == |ReportedRows(l.rows)| + counts.reported
  }

  lemma PassNext(l: Ledger, now: Ledger, comments: seq<Comment>, outside: seq<Outside>, i: nat, counts: Counts)
    requires |comments| == |outside| && i < |comments| && Passed(l, now, comments[..i], outside[..i], counts)
    ensures Passed(l, Handled(now, comments[i], outside[i]), comments[..i + 1], outside[..i + 1],
                   Add(counts, OutcomeOf(now, comments[i], outside[i])))
  {
    assert comments[..i + 1][..i] == comments[..i] && outside[..i + 1][..i] == outside[..i];
    ReportedRowsStep(now, comments[i], outside[i]);
    CountsNext(counts, Outcomes(l, comments[..i], outside[..i]), OutcomeOf(now, comments[i], outside[i]));
  }

  lemma CountsNext(counts: Counts, outcomes: seq<Outcome>, outcome: Outcome)
    requires CountsAll(counts, outcomes)
    ensures CountsAll(Add(counts, outcome), outcomes + [outcome])
  {
  }

  lemma ReportedRowsStep(l: Ledger, comment: Comment, outside: Outside)
    ensures |ReportedRows(Handled(l, comment, outside).rows)| ==
      |ReportedRows(l.rows)| + if OutcomeOf(l, comment, outside).Done? then 1 else 0
  {
    if Admitted(l.rows, comment, outside) {
      var k := comment.id.value;
      var after := ReportedRows(Handled(l, comment, outside).rows);
      if OutcomeOf(l, comment, outside).Done? {
        assert after == ReportedRows(l.rows) + {k};
      } else {
        assert after == ReportedRows(l.rows);
      }
    }
  }
}

/**
  The life of agenda service tickets across gateway restarts. One gateway process at a time runs any number of
  submissions and, on another thread, at most one settlement; a crash loses everything but the ticket table and the
  staged replies. Every step is one statement, one transaction or one update of a process-local map.
 */
module AgendaProtocol {
  import opened AgendaTickets
  import Text

  /** The final text of a turn; `diagnostic` tells that it is one of the framework's own failure sentences. */
  datatype Reply = Reply(text: string, diagnostic: bool)

  /** A job in the durable reply outbox. */
  datatype Staging = Staging(ticket: nat, completed: bool, text: string, chat: string, message: string)

  /** What the reply bridge answers: a job, no job, or an exception, possibly after the job was stored. */
  datatype Bridge = Job | NoJob | Raised(stored: bool)

  /** A running submission of a ticket. */
  datatype Submission =
    | Entering(ticket: nat, chat: string)
    | Waiting(ticket: nat, chat: string)
    | Overwriting(ticket: nat, chat: string, to: TicketState)
    | Leaving(ticket: nat, chat: string)

  /** A running settlement of a ticket. */
  datatype Settlement =
    | Idle
    | Looking(ticket: nat, chat: string, message: string, reply: Reply)
    | Checked(ticket: nat, chat: string, message: string, reply: Reply)
    | Contracting(ticket: nat, chat: string, message: string, reply: Reply)
    | Closing(ticket: nat, chat: string, message: string, to: TicketState, text: string, remember: bool)

  datatype State = State(rows: seq<Ticket>, staged: seq<Staging>, claims: seq<nat>,
                         active: map<string, nat>, completed: map<string, nat>,
                         submissions: map<nat, Submission>, settlement: Settlement,
                         disconnecting: bool, leaving: seq<nat>, handed: bool)

  datatype Step =
    | Issue(added: Ticket)
    | AgentClaim(ticket: nat)
    | ExpireOrphan(ticket: nat)
    | Crash
    | Requeue
    | Age(now: int)
    | Submit(coroutine: nat, ticket: nat, now: int)
    | Enter(coroutine: nat)
    | Return(coroutine: nat)
    | GiveUp(coroutine: nat, to: TicketState, bridge: Bridge)
    | Overwrite(coroutine: nat)
    | Leave(coroutine: nat)
    | LookUp(chat: string, message: string, reply: Reply)
    | Check
    | Stage(bridge: Bridge)
    | Contract(kept: bool)
    | Close
    | StartDisconnect(tickets: seq<nat>)
    | DisconnectStage(bridge: Bridge)
    | DisconnectOverwrite
    | EndDisconnect

  predicate Unavailable(reply: Reply) {
    Text.Blank(reply.text) || reply.diagnostic
  }

  predicate Stored(bridge: Bridge) {
    bridge.Job? || (bridge.Raised? && bridge.stored)
  }

  predicate Enabled(s: State, step: Step) {
    match step
    case Issue(added) => added.state.Issued? && !added.agentClaimed
    case AgentClaim(t) => t < |s.rows| && s.rows[t].state.Dispatched?
    case ExpireOrphan(t) => t < |s.rows| && s.rows[t].state.AgentClaimed?
    case Crash => true
    case Requeue => true
    case Age(_) => true
    case Submit(c, t, now) => c !in s.submissions && Claimable(s.rows, t, now)
    case Enter(c) => c in s.submissions && s.submissions[c].Entering?
    case Return(c) => c in s.submissions && s.submissions[c].Waiting?
    case GiveUp(c, to, _) => c in s.submissions && s.submissions[c].Waiting? && (to.Timeout? || to.Failed?)
    case Overwrite(c) => c in s.submissions && s.submissions[c].Overwriting?
    case Leave(c) => c in s.submissions && s.submissions[c].Leaving?
    case LookUp(chat, _, _) => s.settlement.Idle? && chat in s.active
    case Check => s.settlement.Looking?
    case Stage(_) => s.settlement.Checked?
    case Contract(_) => s.settlement.Contracting?
    case Close => s.settlement.Closing?
    case StartDisconnect(tickets) => !s.disconnecting && s.leaving == [] && (set t | t in tickets) == s.active.Values
    case DisconnectStage(_) => s.leaving != [] && !s.handed
    case DisconnectOverwrite => s.leaving != [] && s.handed
    case EndDisconnect => s.disconnecting && s.leaving == []
  }

  function Apply(s: State, step: Step): State
    requires Enabled(s, step)
  {
    match step
    case Issue(added) => s.(rows := s.rows + [added])
    case AgentClaim(t) => s.(rows := s.rows[t := s.rows[t].(state := AgentClaimed, agentClaimed := true)], claims := s.claims + [t])
    case ExpireOrphan(t) => s.(rows := s.rows[t := s.rows[t].(state := Expired)])
    case Crash => s.(active := map[], completed := map[], submissions := map[], settlement := Idle,
                     disconnecting := false, leaving := [], handed := false)
    case Requeue => s.(rows := RequeuedRows(s.rows))
    case Age(now) => s.(rows := AgedRows(s.rows, now))
    case Submit(c, t, now) => s.(rows := ClaimedRows(s.rows, t, now), submissions := s.submissions[c := Entering(t, s.rows[t].chat)])
    case Enter(c) =>
      var sub := s.submissions[c];
      if sub.chat in s.active then s.(submissions := s.submissions - {c})
      else s.(active := s.active[sub.chat := sub.ticket], completed := s.completed - {sub.chat},
              submissions := s.submissions[c := Waiting(sub.ticket, sub.chat)])
    case Return(c) => s.(submissions := s.submissions[c := Leaving(s.submissions[c].ticket, s.submissions[c].chat)])
    case GiveUp(c, to, bridge) =>
      var sub := s.submissions[c];
      s.(staged := Recorded(s.staged, bridge, Staging(sub.ticket, false, "", sub.chat, "")),
         submissions := s.submissions[c := Overwriting(sub.ticket, sub.chat, to)])
    case Overwrite(c) =>
      var sub := s.submissions[c];
      s.(rows := OverwrittenRows(s.rows, sub.ticket, sub.to), submissions := s.submissions[c := Leaving(sub.ticket, sub.chat)])
    case Leave(c) => s.(active := s.active - {s.submissions[c].chat}, submissions := s.submissions - {c})
    case LookUp(chat, message, reply) => s.(settlement := Looking(s.active[chat], chat, message, reply))
    case Check =>
      var x := s.settlement;
      if x.ticket < |s.rows| && s.rows[x.ticket].state.AgentClaimed? && s.rows[x.ticket].message == x.message then
        s.(settlement := Checked(x.ticket, x.chat, x.message, x.reply))
      else s.(settlement := Idle)
    case Stage(bridge) =>
      var x := s.settlement;
      var done := !Unavailable(x.reply);
      var text := if done then x.reply.text else "";
      s.(staged := Recorded(s.staged, bridge, Staging(x.ticket, done, text, x.chat, x.message)),
         settlement := if bridge.Raised? || (done && bridge.NoJob?) then Closing(x.ticket, x.chat, x.message, Failed, "", false)
                       else if done then Contracting(x.ticket, x.chat, x.message, x.reply)
                       else Closing(x.ticket, x.chat, x.message, Failed, "", true))
    case Contract(kept) =>
      var x := s.settlement;
      s.(settlement := if kept then Closing(x.ticket, x.chat, x.message, Completed, x.reply.text, true)
                       else Closing(x.ticket, x.chat, x.message, Failed, "", false))
    case Close =>
      var x := s.settlement;
      s.(rows := SettledRows(s.rows, x.ticket, x.to, x.text), settlement := Idle,
         completed := if x.remember then s.completed[x.chat := x.ticket] else s.completed)
    case StartDisconnect(tickets) => s.(disconnecting := true, leaving := tickets, handed := false)
    case DisconnectStage(bridge) =>
      s.(staged := Recorded(s.staged, bridge, Staging(s.leaving[0], false, "", "", "")), handed := true)
    case DisconnectOverwrite =>
      s.(rows := OverwrittenRows(s.rows, s.leaving[0], Failed), leaving := s.leaving[1..], handed := false)
    case EndDisconnect => s.(active := map[], completed := map[], disconnecting := false)
  }

  function Recorded(staged: seq<Staging>, bridge: Bridge, job: Staging): seq<Staging> {
    if Stored(bridge) then staged + [job] else staged
  }

  predicate Feasible(s: State, steps: seq<Step>)
    decreases |steps|
  {
    steps == [] || (Enabled(s, steps[0]) && Feasible(Apply(s, steps[0]), steps[1..]))
  }

  function Run(s: State, steps: seq<Step>): State
    requires Feasible(s, steps)
    decreases |steps|
  {
    if steps == [] then s else Run(Apply(s, steps[0]), steps[1..])
  }

  const EMPTY := State([], [], [], map[], map[], map[], Idle, false, [], false)

  /** The job is a completed terminal of ticket `t`. */
  predicate CompletedJob(job: Staging, t: nat) {
    job.ticket == t && job.completed
  }

  ghost predicate HasCompletedJob(staged: seq<Staging>, t: nat) {
    exists k :: 0 <= k < |staged| && CompletedJob(staged[k], t)
  }

  /** At most one completed terminal of each ticket. */
  ghost predicate SingleJobs(staged: seq<Staging>) {
    forall j, k, t :: 0 <= j < k < |staged| && CompletedJob(staged[j], t) ==> !CompletedJob(staged[k], t)
  }

  /** A stored completed job with this reply, bound to the ticket's own chat and message. */
  ghost predicate Backed(s: State, t: nat, text: string) {
    && t < |s.rows| && !Text.Blank(text)
    && Staging(t, true, text, s.rows[t].chat, s.rows[t].message) in s.staged
  }

  /** The process still has something to do with ticket `t`. */
  ghost predicate Mentioned(s: State, t: nat) {
    || t in s.active.Values
    || (exists c :: c in s.submissions && s.submissions[c].ticket == t)
    || (!s.settlement.Idle? && s.settlement.ticket == t)
  }

  /** A settlement that has already had its chance to store the completed job. */
  ghost predicate PastStaging(s: State, t: nat) {
    (s.settlement.Contracting? || s.settlement.Closing?) && s.settlement.ticket == t
  }

  ghost predicate LocalOk(s: State) {
    && (forall c :: c in s.submissions ==> s.submissions[c].ticket < |s.rows| && s.rows[s.submissions[c].ticket].chat == s.submissions[c].chat)
    && (forall c :: c in s.submissions && s.submissions[c].Overwriting? ==> s.submissions[c].to.Timeout? || s.submissions[c].to.Failed?)
    && (forall chat :: chat in s.active ==> s.active[chat] < |s.rows| && s.rows[s.active[chat]].chat == chat)
    && SettlementOk(s)
  }

  ghost predicate SettlementOk(s: State) {
    var x := s.settlement;
    && (!x.Idle? ==> x.ticket < |s.rows| && s.rows[x.ticket].chat == x.chat)
    && (x.Checked? || x.Contracting? || x.Closing? ==> !Open(s.rows[x.ticket]) && s.rows[x.ticket].message == x.message)
    && (x.Checked? ==> !HasCompletedJob(s.staged, x.ticket))
    && (x.Contracting? ==> Backed(s, x.ticket, x.reply.text))
    && (x.Closing? ==> x.to.Failed? || (x.to.Completed? && Backed(s, x.ticket, x.text)))
  }

  ghost predicate Invariant(s: State) {
    && LocalOk(s) && SingleJobs(s.staged)
    && (forall t :: t in s.claims ==> t < |s.rows| && !Open(s.rows[t]))
    && (forall i, j :: 0 <= i < j < |s.claims| ==> s.claims[i] != s.claims[j])
    && (forall t: nat :: HasCompletedJob(s.staged, t) ==> t < |s.rows| && !Open(s.rows[t]))
    && (forall t :: 0 <= t < |s.rows| && s.rows[t].state.Completed? ==> Backed(s, t, s.rows[t].reply))
    && (forall t :: 0 <= t < |s.rows| && s.rows[t].state.AgentClaimed? && HasCompletedJob(s.staged, t) ==>
          PastStaging(s, t) || !Mentioned(s, t))
  }

  /** What a statement other than an agent claim or a settling completion may do to the table. */
  ghost predicate RowsEvolve(rows: seq<Ticket>, rows': seq<Ticket>) {
    && |rows| <= |rows'|
    && (forall i :: 0 <= i < |rows| ==>
          && rows'[i].chat == rows[i].chat && rows'[i].message == rows[i].message
          && (!Open(rows[i]) ==> !Open(rows'[i]))
          && (rows'[i].state.AgentClaimed? ==> rows[i].state.AgentClaimed?)
          && (rows'[i].state.Completed? ==> rows'[i] == rows[i]))
    && (forall i :: |rows| <= i < |rows'| ==> rows'[i].state.Issued?)
  }

  /** What a step that stores no completed job may do to the staged replies. */
  ghost predicate JobsEvolve(staged: seq<Staging>, staged': seq<Staging>) {
    staged' == staged || (|staged'| == |staged| + 1 && staged'[..|staged|] == staged && !staged'[|staged|].completed)
  }

  lemma JobsSame(staged: seq<Staging>, staged': seq<Staging>)
    requires JobsEvolve(staged, staged')
    ensures forall t :: HasCompletedJob(staged', t) <==> HasCompletedJob(staged, t)
    ensures SingleJobs(staged) ==> SingleJobs(staged')
    ensures forall job :: job in staged ==> job in staged'
  {
    if staged' != staged {
      assert forall k :: 0 <= k < |staged| ==> staged'[k] == staged[k];
      forall t ensures HasCompletedJob(staged', t) <==> HasCompletedJob(staged, t) {
        if HasCompletedJob(staged', t) {
          var k :| 0 <= k < |staged'| && CompletedJob(staged'[k], t);
          assert CompletedJob(staged[k], t);
        }
        if HasCompletedJob(staged, t) {
          var k :| 0 <= k < |staged| && CompletedJob(staged[k], t);
          assert CompletedJob(staged'[k], t);
        }
      }
    }
  }

  lemma BackedEvolves(s: State, s': State, t: nat, text: string)
    requires Backed(s, t, text) && RowsEvolve(s.rows, s'.rows) && forall job :: job in s.staged ==> job in s'.staged
    ensures Backed(s', t, text)
  {
  }

  /** A step that neither claims, nor stores a completed job, nor completes a ticket keeps the invariant. */
  lemma FrameKeeps(s: State, s': State)
    requires Invariant(s) && RowsEvolve(s.rows, s'.rows) && JobsEvolve(s.staged, s'.staged) && s'.claims == s.claims
    requires LocalOk(s')
    requires forall t :: HasCompletedJob(s.staged, t) && PastStaging(s, t) ==> PastStaging(s', t)
    requires forall t :: HasCompletedJob(s.staged, t) && Mentioned(s', t) ==> Mentioned(s, t)
    ensures Invariant(s')
  {
    JobsSame(s.staged, s'.staged);
    forall t | 0 <= t < |s'.rows| && s'.rows[t].state.Completed? ensures Backed(s', t, s'.rows[t].reply) {
      assert s.rows[t].state.Completed?;
      BackedEvolves(s, s', t, s.rows[t].reply);
    }
  }

  lemma LocalFrame(s: State, s': State)
    requires LocalOk(s) && RowsEvolve(s.rows, s'.rows) && JobsEvolve(s.staged, s'.staged)
    requires s'.active == s.active && s'.submissions == s.submissions && s'.settlement == s.settlement
    ensures LocalOk(s')
  {
    JobsSame(s.staged, s'.staged);
    var x := s.settlement;
    if x.Contracting? {
      BackedEvolves(s, s', x.ticket, x.reply.text);
    }
    if x.Closing? && x.to.Completed? {
      BackedEvolves(s, s', x.ticket, x.text);
    }
  }

  /** A step that only touches the table and the staged replies. */
  lemma TableKeeps(s: State, s': State)
    requires Invariant(s) && RowsEvolve(s.rows, s'.rows) && JobsEvolve(s.staged, s'.staged) && s'.claims == s.claims
    requires s'.active == s.active && s'.submissions == s.submissions && s'.settlement == s.settlement
    ensures Invariant(s')
  {
    LocalFrame(s, s');
    assert forall t :: Mentioned(s', t) ==> Mentioned(s, t);
    FrameKeeps(s, s');
  }

  lemma TableStepKeeps(s: State, step: Step)
    requires Invariant(s) && Enabled(s, step)
    requires step.Issue? || step.ExpireOrphan? || step.Requeue? || step.Age? || step.DisconnectStage? || step.DisconnectOverwrite?
    ensures Invariant(Apply(s, step))
  {
    var s' := Apply(s, step);
    assert RowsEvolve(s.rows, s'.rows);
    assert JobsEvolve(s.staged, s'.staged);
    TableKeeps(s, s');
  }

  lemma OverwriteKeeps(s: State, c: nat)
    requires Invariant(s) && Enabled(s, Overwrite(c))
    ensures Invariant(Apply(s, Overwrite(c)))
  {
    var sub := s.submissions[c];
    var mid := s.(rows := OverwrittenRows(s.rows, sub.ticket, sub.to));
    TableKeeps(s, mid);
    SubmissionMoves(mid, c, Leaving(sub.ticket, sub.chat));
  }

  /** Moving a submission on, without changing what it is about, keeps the invariant. */
  lemma SubmissionMoves(s: State, c: nat, next: Submission)
    requires Invariant(s) && c in s.submissions
    requires next.ticket == s.submissions[c].ticket && next.chat == s.submissions[c].chat
    requires next.Overwriting? ==> next.to.Timeout? || next.to.Failed?
    ensures Invariant(s.(submissions := s.submissions[c := next]))
  {
    var s' := s.(submissions := s.submissions[c := next]);
    forall t | Mentioned(s', t) ensures Mentioned(s, t) {
      if d :| d in s'.submissions && s'.submissions[d].ticket == t {
        assert s.submissions[d].ticket == t;
      }
    }
    LocalSettlement(s, s');
    FrameKeeps(s, s');
  }

  lemma LocalSettlement(s: State, s': State)
    requires SettlementOk(s) && s'.settlement == s.settlement && s'.rows == s.rows && s'.staged == s.staged
    ensures SettlementOk(s')
  {
  }

  lemma SubmissionStepKeeps(s: State, step: Step)
    requires Invariant(s) && Enabled(s, step)
    requires step.Return? || step.GiveUp? || step.Leave?
    ensures Invariant(Apply(s, step))
  {
    match step
    case Return(c) => SubmissionMoves(s, c, Leaving(s.submissions[c].ticket, s.submissions[c].chat));
    case GiveUp(c, to, bridge) =>
      var sub := s.submissions[c];
      var mid := s.(staged := Recorded(s.staged, bridge, Staging(sub.ticket, false, "", sub.chat, "")));
      TableKeeps(s, mid);
      SubmissionMoves(mid, c, Overwriting(sub.ticket, sub.chat, to));
    case Leave(c) =>
      var s' := Apply(s, step);
      LocalSettlement(s, s');
      FewerMentions(s, s');
      FrameKeeps(s, s');
  }

  lemma FewerMentions(s: State, s': State)
    requires s'.settlement == s.settlement
    requires forall chat :: chat in s'.active ==> chat in s.active && s'.active[chat] == s.active[chat]
    requires forall c :: c in s'.submissions ==> c in s.submissions && s'.submissions[c] == s.submissions[c]
    ensures forall t :: Mentioned(s', t) ==> Mentioned(s, t)
  {
    forall t | Mentioned(s', t) ensures Mentioned(s, t) {
      if t in s'.active.Values {
        var chat :| chat in s'.active && s'.active[chat] == t;
        assert s.active[chat] == t;
      }
    }
  }

  lemma EnterKeeps(s: State, c: nat)
    requires Invariant(s) && Enabled(s, Enter(c))
    ensures Invariant(Apply(s, Enter(c)))
  {
    EnterLocal(s, c);
    EnterMentions(s, c);
    FrameKeeps(s, Apply(s, Enter(c)));
  }

  lemma EnterLocal(s: State, c: nat)
    requires LocalOk(s) && Enabled(s, Enter(c))
    ensures LocalOk(Apply(s, Enter(c)))
  {
    LocalSettlement(s, Apply(s, Enter(c)));
  }

  lemma EnterMentions(s: State, c: nat)
    requires Enabled(s, Enter(c))
    ensures forall t :: Mentioned(Apply(s, Enter(c)), t) ==> Mentioned(s, t)
  {
    var s' := Apply(s, Enter(c));
    var sub := s.submissions[c];
    forall t | Mentioned(s', t) ensures Mentioned(s, t) {
      if t in s'.active.Values {
        var chat :| chat in s'.active && s'.active[chat] == t;
        assert t == sub.ticket || s.active[chat] == t;
      }
      if d :| d in s'.submissions && s'.submissions[d].ticket == t {
        assert s.submissions[d].ticket == t;
      }
    }
  }

  lemma SubmitKeeps(s: State, step: Step)
    requires Invariant(s) && step.Submit? && Enabled(s, step)
    ensures Invariant(Apply(s, step))
  {
    var s' := Apply(s, step);
    var mid := s.(rows := s'.rows);
    LocalFrame(s, mid);
    LocalSettlement(mid, s');
    forall t: nat | HasCompletedJob(s.staged, t) && Mentioned(s', t) ensures Mentioned(s, t) {
      if d :| d in s'.submissions && s'.submissions[d].ticket == t {
        assert d != step.coroutine;
        assert s.submissions[d].ticket == t;
      }
    }
    FrameKeeps(s, s');
  }

  lemma AgentClaimLocal(s: State, t: nat)
    requires LocalOk(s) && Enabled(s, AgentClaim(t))
    ensures LocalOk(Apply(s, AgentClaim(t)))
  {
    assert forall u, text :: Backed(s, u, text) ==> Backed(Apply(s, AgentClaim(t)), u, text);
  }

  lemma AgentClaimKeeps(s: State, t: nat)
    requires Invariant(s) && Enabled(s, AgentClaim(t))
    ensures Invariant(Apply(s, AgentClaim(t)))
  {
    var s' := Apply(s, AgentClaim(t));
    AgentClaimLocal(s, t);
    assert t !in s.claims && !HasCompletedJob(s.staged, t);
    forall i, j | 0 <= i < j < |s'.claims| ensures s'.claims[i] != s'.claims[j] {
      assert s'.claims[i] in s.claims;
    }
    forall u: nat | u < |s'.rows| && s'.rows[u].state.Completed? ensures Backed(s', u, s'.rows[u].reply) {
      assert Backed(s, u, s.rows[u].reply);
    }
    forall u | Mentioned(s', u) ensures Mentioned(s, u) {
    }
  }

  lemma CrashKeeps(s: State)
    requires Invariant(s)
    ensures Invariant(Apply(s, Crash))
  {
    var s' := Apply(s, Crash);
    assert forall t :: !Mentioned(s', t);
    assert forall u, text :: Backed(s, u, text) ==> Backed(s', u, text);
  }

  /** Moving the settlement on, without a new job, keeps the invariant. */
  lemma SettlementMoves(s: State, next: Settlement)
    requires Invariant(s) && SettlementOk(s.(settlement := next))
    requires !next.Idle? ==> Mentioned(s, next.ticket)
    requires forall t :: HasCompletedJob(s.staged, t) && PastStaging(s, t) ==> PastStaging(s.(settlement := next), t)
    ensures Invariant(s.(settlement := next))
  {
    var s' := s.(settlement := next);
    forall t | Mentioned(s', t) ensures Mentioned(s, t) {
    }
    FrameKeeps(s, s');
  }

  lemma LookUpKeeps(s: State, step: Step)
    requires Invariant(s) && Enabled(s, step) && step.LookUp?
    ensures Invariant(Apply(s, step))
  {
    SettlementMoves(s, Apply(s, step).settlement);
  }

  lemma CheckKeeps(s: State)
    requires Invariant(s) && Enabled(s, Check)
    ensures Invariant(Apply(s, Check))
  {
    var t := s.settlement.ticket;
    assert Mentioned(s, t) && !PastStaging(s, t);
    SettlementMoves(s, Apply(s, Check).settlement);
  }

  lemma ContractKeeps(s: State, kept: bool)
    requires Invariant(s) && Enabled(s, Contract(kept))
    ensures Invariant(Apply(s, Contract(kept)))
  {
    SettlementMoves(s, Apply(s, Contract(kept)).settlement);
  }

  lemma CompletedJobStored(staged: seq<Staging>, job: Staging)
    requires SingleJobs(staged) && job.completed && !HasCompletedJob(staged, job.ticket)
    ensures SingleJobs(staged + [job])
    ensures forall t :: HasCompletedJob(staged + [job], t) <==> HasCompletedJob(staged, t) || t == job.ticket
  {
    var all := staged + [job];
    assert CompletedJob(all[|staged|], job.ticket);
    forall t | HasCompletedJob(staged, t) ensures HasCompletedJob(all, t) {
      var k :| 0 <= k < |staged| && CompletedJob(staged[k], t);
      assert CompletedJob(all[k], t);
    }
    forall t | HasCompletedJob(all, t) && t != job.ticket ensures HasCompletedJob(staged, t) {
      var k :| 0 <= k < |all| && CompletedJob(all[k], t);
      assert CompletedJob(staged[k], t);
    }
    forall j, k, t | 0 <= j < k < |all| && CompletedJob(all[j], t) ensures !CompletedJob(all[k], t) {
      assert CompletedJob(staged[j], t);
    }
  }

  /** The completed job that a settlement stores. */
  function JobOf(x: Settlement): Staging
    requires x.Checked?
  {
    Staging(x.ticket, true, x.reply.text, x.chat, x.message)
  }

  lemma StoreIsLocal(s: State, step: Step)
    requires Invariant(s) && step.Stage? && Enabled(s, step) && !Unavailable(s.settlement.reply) && Stored(step.bridge)
    ensures LocalOk(Apply(s, step)) && PastStaging(Apply(s, step), s.settlement.ticket)
  {
    assert Apply(s, step).staged[|s.staged|] == JobOf(s.settlement);
  }

  lemma StoreKeeps(s: State, s': State)
    requires Invariant(s) && s.settlement.Checked? && LocalOk(s') && PastStaging(s', s.settlement.ticket)
    requires s' == s.(staged := s.staged + [JobOf(s.settlement)], settlement := s'.settlement)
    ensures Invariant(s')
  {
    CompletedJobStored(s.staged, JobOf(s.settlement));
    forall t | t != s.settlement.ticket ensures Mentioned(s', t) <==> Mentioned(s, t) {
    }
    forall u, text | Backed(s, u, text) ensures Backed(s', u, text) {
    }
  }

  lemma StageKeeps(s: State, step: Step)
    requires Invariant(s) && step.Stage? && Enabled(s, step)
    ensures Invariant(Apply(s, step))
  {
    var s' := Apply(s, step);
    if Unavailable(s.settlement.reply) || !Stored(step.bridge) {
      JobsSame(s.staged, s'.staged);
      assert forall t :: Mentioned(s', t) ==> Mentioned(s, t);
      FrameKeeps(s, s');
    } else {
      StoreIsLocal(s, step);
      StoreKeeps(s, s');
    }
  }

  lemma CloseKeeps(s: State)
    requires Invariant(s) && Enabled(s, Close)
    ensures Invariant(Apply(s, Close))
  {
    CloseMentions(s);
    CloseBacks(s);
    CloseLocal(s);
    assert !Apply(s, Close).rows[s.settlement.ticket].state.AgentClaimed?;
  }

  lemma CloseLocal(s: State)
    requires LocalOk(s) && Enabled(s, Close)
    ensures LocalOk(Apply(s, Close))
  {
  }

  lemma CloseMentions(s: State)
    requires Enabled(s, Close)
    ensures forall t :: t != s.settlement.ticket && Mentioned(Apply(s, Close), t) ==> Mentioned(s, t)
  {
  }

  lemma CloseBacks(s: State)
    requires Enabled(s, Close)
    ensures forall u, text :: Backed(s, u, text) ==> Backed(Apply(s, Close), u, text)
  {
  }

  lemma SettlementStepKeeps(s: State, step: Step)
    requires Invariant(s) && Enabled(s, step)
    requires step.LookUp? || step.Check? || step.Stage? || step.Contract? || step.Close?
    ensures Invariant(Apply(s, step))
  {
    if step.Stage? {
      StageKeeps(s, step);
    } else if step.Close? {
      CloseKeeps(s);
    } else if step.Check? {
      CheckKeeps(s);
    } else if step.Contract? {
      ContractKeeps(s, step.kept);
    } else {
      LookUpKeeps(s, step);
    }
  }

  lemma ProcessStepKeeps(s: State, step: Step)
    requires Invariant(s) && Enabled(s, step)
    requires step.AgentClaim? || step.Crash? || step.StartDisconnect? || step.EndDisconnect?
    ensures Invariant(Apply(s, step))
  {
    if step.AgentClaim? {
      AgentClaimKeeps(s, step.ticket);
    } else if step.Crash? {
      CrashKeeps(s);
    } else {
      var s' := Apply(s, step);
      LocalSettlement(s, s');
      FewerMentions(s, s');
      FrameKeeps(s, s');
    }
  }

  lemma StepKeeps(s: State, step: Step)
    requires Invariant(s) && Enabled(s, step)
    ensures Invariant(Apply(s, step))
  {
    if step.LookUp? || step.Check? || step.Stage? || step.Contract? || step.Close? {
      SettlementStepKeeps(s, step);
    } else if step.AgentClaim? || step.Crash? || step.StartDisconnect? || step.EndDisconnect? {
      ProcessStepKeeps(s, step);
    } else if step.Return? || step.GiveUp? || step.Leave? {
      SubmissionStepKeeps(s, step);
    } else if step.Submit? {
      SubmitKeeps(s, step);
    } else if step.Enter? {
      EnterKeeps(s, step.coroutine);
    } else if step.Overwrite? {
      OverwriteKeeps(s, step.coroutine);
    } else {
      TableStepKeeps(s, step);
    }
  }

  lemma {:induction false} RunKeeps(s: State, steps: seq<Step>)
    requires Invariant(s) && Feasible(s, steps)
    ensures Invariant(Run(s, steps))
    decreases |steps|
  {
    if steps != [] {
      StepKeeps(s, steps[0]);
      RunKeeps(Apply(s, steps[0]), steps[1..]);
    }
  }

  /** Over any run, restarts included, no ticket gives rise to two agent claims, and a claimed ticket is never issued or dispatched again. */
  lemma AtMostOneAgentClaim(steps: seq<Step>)
    requires Feasible(EMPTY, steps)
    ensures var s := Run(EMPTY, steps);
            && (forall i, j :: 0 <= i < j < |s.claims| ==> s.claims[i] != s.claims[j])
            && forall t :: t in s.claims ==> t < |s.rows| && !Open(s.rows[t])
  {
    RunKeeps(EMPTY, steps);
  }

  lemma StaysClosed(s: State, step: Step, t: nat)
    requires Invariant(s) && Enabled(s, step) && t < |s.rows| && !Open(s.rows[t])
    ensures t < |Apply(s, step).rows| && !Open(Apply(s, step).rows[t])
  {
    if step.Overwrite? {
      var sub := s.submissions[step.coroutine];
      assert sub.to.Timeout? || sub.to.Failed?;
    } else if step.Close? {
      assert SettlementOk(s);
    } else {
      ClosedStays(s, step, t);
    }
  }

  lemma ClosedStays(s: State, step: Step, t: nat)
    requires Enabled(s, step) && !step.Overwrite? && !step.Close? && t < |s.rows| && !Open(s.rows[t])
    ensures t < |Apply(s, step).rows| && !Open(Apply(s, step).rows[t])
  {
  }

  /** A ticket that is claimed or ended never becomes issued or dispatched again. */
  lemma {:induction false} NeverReopened(s: State, steps: seq<Step>, t: nat)
    requires Invariant(s) && Feasible(s, steps) && t < |s.rows| && !Open(s.rows[t])
    ensures t < |Run(s, steps).rows| && !Open(Run(s, steps).rows[t])
    decreases |steps|
  {
    if steps != [] {
      StepKeeps(s, steps[0]);
      StaysClosed(s, steps[0], t);
      NeverReopened(Apply(s, steps[0]), steps[1..], t);
    }
  }

  /** Over any run, at most one completed terminal is stored per ticket. */
  lemma AtMostOneCompletedJob(steps: seq<Step>)
    requires Feasible(EMPTY, steps)
    ensures SingleJobs(Run(EMPTY, steps).staged)
  {
    RunKeeps(EMPTY, steps);
  }

  /** A completed ticket always has a stored reply that is not blank, is the text recorded on it, and carries its own chat and message. */
  lemma CompletedIsBacked(steps: seq<Step>, t: nat)
    requires Feasible(EMPTY, steps)
    requires t < |Run(EMPTY, steps).rows| && Run(EMPTY, steps).rows[t].state.Completed?
    ensures var s := Run(EMPTY, steps);
            && !Text.Blank(s.rows[t].reply)
            && Staging(t, true, s.rows[t].reply, s.rows[t].chat, s.rows[t].message) in s.staged
  {
    RunKeeps(EMPTY, steps);
  }

  /** The step overwrites ticket `t` without looking at its state. */
  predicate Overwrites(s: State, step: Step, t: nat)
    requires Enabled(s, step)
  {
    match step
    case Overwrite(c) => s.submissions[c].ticket == t
    case DisconnectOverwrite => s.leaving[0] == t
    case _ => false
  }

  /** Every other step leaves a completed ticket as it is. */
  lemma CompletedStays(s: State, step: Step, t: nat)
    requires Enabled(s, step) && t < |s.rows| && s.rows[t].state.Completed? && !Overwrites(s, step, t)
    ensures t < |Apply(s, step).rows| && Apply(s, step).rows[t] == s.rows[t]
  {
  }

  // ----- When a completed ticket can still be lost -----

  /** A submission of the ticket may still give up, or a disconnect reaches it. */
  ghost predicate AtRisk(s: State, t: nat) {
    || (exists c :: Pending(s, c, t))
    || t in s.leaving
    || (!s.disconnecting && t in s.active.Values)
  }

  /** Submission `c` of ticket `t` has not settled how it ends. */
  predicate Pending(s: State, c: nat, t: nat) {
    c in s.submissions && s.submissions[c].ticket == t && !s.submissions[c].Leaving?
  }

  /** A run after which the ticket is not completed. */
  ghost predicate Loses(s: State, steps: seq<Step>, t: nat) {
    Feasible(s, steps) && t < |Run(s, steps).rows| && !Run(s, steps).rows[t].state.Completed?
  }

  lemma SafeStep(s: State, step: Step, t: nat)
    requires Enabled(s, step) && t < |s.rows| && s.rows[t].state.Completed? && !AtRisk(s, t)
    ensures t < |Apply(s, step).rows| && Apply(s, step).rows[t].state.Completed?
    ensures !AtRisk(Apply(s, step), t)
  {
    SafeFromOverwrite(s, step, t);
    CompletedStays(s, step, t);
    SafePending(s, step, t);
    SafeMaps(s, step, t);
  }

  lemma SafeFromOverwrite(s: State, step: Step, t: nat)
    requires Enabled(s, step) && !AtRisk(s, t)
    ensures !Overwrites(s, step, t)
  {
    if step.Overwrite? {
      assert !Pending(s, step.coroutine, t);
    }
  }

  lemma SafePending(s: State, step: Step, t: nat)
    requires Enabled(s, step) && t < |s.rows| && s.rows[t].state.Completed? && forall c :: !Pending(s, c, t)
    ensures forall c :: !Pending(Apply(s, step), c, t)
  {
    forall c ensures !Pending(Apply(s, step), c, t) {
      assert !Pending(s, c, t);
    }
  }

  lemma SafeMaps(s: State, step: Step, t: nat)
    requires Enabled(s, step) && t < |s.rows| && !AtRisk(s, t)
    ensures t !in Apply(s, step).leaving
    ensures !Apply(s, step).disconnecting ==> t !in Apply(s, step).active.Values
  {
    if step.Enter? {
      assert !Pending(s, step.coroutine, t);
    }
    if step.StartDisconnect? {
      assert t in step.tickets <==> t in set u | u in step.tickets;
    }
  }

  lemma {:induction false} SafeRun(s: State, steps: seq<Step>, t: nat)
    requires Feasible(s, steps) && t < |s.rows| && s.rows[t].state.Completed? && !AtRisk(s, t)
    ensures !Loses(s, steps, t)
    decreases |steps|
  {
    if steps != [] {
      SafeStep(s, steps[0], t);
      SafeRun(Apply(s, steps[0]), steps[1..], t);
    }
  }

  lemma First(s: State, step: Step, rest: seq<Step>) returns (steps: seq<Step>)
    requires Enabled(s, step) && Feasible(Apply(s, step), rest)
    ensures Feasible(s, steps) && Run(s, steps) == Run(Apply(s, step), rest)
  {
    steps := [step] + rest;
    assert steps[1..] == rest;
  }

  lemma SplitFirst(steps: seq<Step>, step: Step)
    requires steps != []
    ensures steps + [step] == [steps[0]] + (steps[1..] + [step])
  {
  }

  /** A run goes on with an enabled step. */
  lemma {:induction false} Last(s: State, steps: seq<Step>, step: Step) returns (longer: seq<Step>)
    requires Feasible(s, steps) && Enabled(Run(s, steps), step)
    ensures longer == steps + [step] && Feasible(s, longer) && Run(s, longer) == Apply(Run(s, steps), step)
    decreases |steps|
  {
    longer := steps + [step];
    if steps == [] {
      assert longer == [step] && longer[1..] == [];
    } else {
      var rest := Last(Apply(s, steps[0]), steps[1..], step);
      SplitFirst(steps, step);
      assert longer[0] == steps[0] && longer[1..] == rest;
    }
  }

  lemma OverwriteLoses(s: State, c: nat, t: nat) returns (steps: seq<Step>)
    requires Invariant(s) && t < |s.rows| && c in s.submissions && s.submissions[c].Overwriting? && s.submissions[c].ticket == t
    ensures Loses(s, steps, t)
  {
    var s' := Apply(s, Overwrite(c));
    assert s.submissions[c].to.Timeout? || s.submissions[c].to.Failed?;
    assert Run(s', []) == s';
    steps := First(s, Overwrite(c), []);
  }

  lemma WaitingLoses(s: State, c: nat, t: nat) returns (steps: seq<Step>)
    requires Invariant(s) && t < |s.rows| && c in s.submissions && s.submissions[c].Waiting? && s.submissions[c].ticket == t
    ensures Loses(s, steps, t)
  {
    var step := GiveUp(c, Timeout, NoJob);
    StepKeeps(s, step);
    steps := OverwriteLoses(Apply(s, step), c, t);
    steps := First(s, step, steps);
  }

  /** A disconnect under way reaches the ticket. */
  lemma {:induction false} LeavingLoses(s: State, t: nat) returns (steps: seq<Step>)
    requires t < |s.rows| && t in s.leaving
    ensures Loses(s, steps, t)
    decreases |s.leaving|, if s.handed then 0 else 1
  {
    var step := if s.handed then DisconnectOverwrite else DisconnectStage(NoJob);
    var s' := Apply(s, step);
    if s.handed && s.leaving[0] == t {
      assert Run(s', []) == s';
      steps := First(s, step, []);
    } else {
      steps := LeavingLoses(s', t);
      steps := First(s, step, steps);
    }
  }

  lemma {:induction false} Listed(values: set<nat>) returns (list: seq<nat>)
    ensures forall t :: t in list <==> t in values
    decreases |values|
  {
    list := [];
    if values != {} {
      var t :| t in values;
      var rest := Listed(values - {t});
      list := rest + [t];
    }
  }

  /** The tickets of the active map, as a disconnect reads them. */
  lemma ActiveTickets(s: State) returns (tickets: seq<nat>)
    requires !s.disconnecting && s.leaving == []
    ensures Enabled(s, StartDisconnect(tickets)) && forall t :: t in tickets <==> t in s.active.Values
  {
    tickets := Listed(s.active.Values);
    assert (set t | t in tickets) == s.active.Values;
  }

  lemma ActiveLoses(s: State, t: nat) returns (steps: seq<Step>)
    requires t < |s.rows| && !s.disconnecting && s.leaving == [] && t in s.active.Values
    ensures Loses(s, steps, t)
  {
    var tickets := ActiveTickets(s);
    steps := LeavingLoses(Apply(s, StartDisconnect(tickets)), t);
    steps := First(s, StartDisconnect(tickets), steps);
  }

  /** A submission that has not entered yet gets its turn, if need be after a disconnect that frees its chat. */
  lemma {:induction false} EnteringLoses(s: State, c: nat, t: nat) returns (steps: seq<Step>)
    requires Invariant(s) && t < |s.rows| && c in s.submissions && s.submissions[c].Entering? && s.submissions[c].ticket == t
    ensures Loses(s, steps, t)
    decreases if s.submissions[c].chat in s.active then 1 else 0, if s.disconnecting then 0 else 1, |s.leaving|, if s.handed then 0 else 1
  {
    var step: Step;
    if s.submissions[c].chat !in s.active {
      step := Enter(c);
      StepKeeps(s, step);
      steps := WaitingLoses(Apply(s, step), c, t);
    } else {
      if s.leaving != [] {
        step := if s.handed then DisconnectOverwrite else DisconnectStage(NoJob);
      } else if s.disconnecting {
        step := EndDisconnect;
      } else {
        var tickets := ActiveTickets(s);
        step := StartDisconnect(tickets);
      }
      StepKeeps(s, step);
      steps := EnteringLoses(Apply(s, step), c, t);
    }
    steps := First(s, step, steps);
  }

  lemma AtRiskLoses(s: State, t: nat) returns (steps: seq<Step>)
    requires Invariant(s) && t < |s.rows| && AtRisk(s, t) && (s.leaving != [] ==> s.disconnecting)
    ensures Loses(s, steps, t)
  {
    if t in s.leaving {
      steps := LeavingLoses(s, t);
    } else if c :| Pending(s, c, t) {
      if s.submissions[c].Entering? {
        steps := EnteringLoses(s, c, t);
      } else if s.submissions[c].Waiting? {
        steps := WaitingLoses(s, c, t);
      } else {
        steps := OverwriteLoses(s, c, t);
      }
    } else {
      steps := ActiveLoses(s, t);
    }
  }

  /**
    In every reachable state a completed ticket can still be lost exactly while a submission of it has not settled how
    it ends, or a disconnect has it or can still get it.
   */
  lemma CompletedLostExactlyAtRisk(run: seq<Step>, t: nat)
    requires Feasible(EMPTY, run)
    requires t < |Run(EMPTY, run).rows| && Run(EMPTY, run).rows[t].state.Completed?
    ensures (exists steps :: Loses(Run(EMPTY, run), steps, t)) <==> AtRisk(Run(EMPTY, run), t)
  {
    RunKeeps(EMPTY, run);
    LeavingOnlyInDisconnect(EMPTY, run);
    var s := Run(EMPTY, run);
    if AtRisk(s, t) {
      var steps := AtRiskLoses(s, t);
    } else {
      forall steps ensures !Loses(s, steps, t) {
        if Feasible(s, steps) {
          SafeRun(s, steps, t);
        }
      }
    }
  }

  lemma {:induction false} LeavingOnlyInDisconnect(s: State, steps: seq<Step>)
    requires Feasible(s, steps) && (s.leaving != [] ==> s.disconnecting)
    ensures Run(s, steps).leaving != [] ==> Run(s, steps).disconnecting
    decreases |steps|
  {
    if steps != [] {
      LeavingOnlyInDisconnect(Apply(s, steps[0]), steps[1..]);
    }
  }

  /** A ticket that nothing stands against, and a reply that is one. */
  ghost predicate Ordinary(ticket: Ticket, now: int, reply: Reply) {
    && ticket.state.Issued? && !ticket.agentClaimed && ticket.attested && ticket.expires >= now
    && !Unavailable(reply)
  }

  /** Up to the agent's claim of a ticket that a submission waits for. */
  lemma Claimed(ticket: Ticket, now: int, rest: seq<Step>) returns (s: State, steps: seq<Step>)
    requires ticket.state.Issued? && !ticket.agentClaimed && ticket.attested && ticket.expires >= now
    requires Feasible(AfterAgentClaim(ticket), rest)
    ensures s == AfterAgentClaim(ticket)
    ensures Feasible(EMPTY, steps) && Run(EMPTY, steps) == Run(s, rest)
  {
    s := AfterAgentClaim(ticket);
    var s1 := Apply(EMPTY, Issue(ticket));
    var s2 := Apply(s1, Submit(0, 0, now));
    var s3 := Apply(s2, Enter(0));
    assert s3.rows == [ticket.(state := Dispatched)];
    assert Apply(s3, AgentClaim(0)) == s;
    steps := First(s3, AgentClaim(0), rest);
    steps := First(s2, Enter(0), steps);
    steps := First(s1, Submit(0, 0, now), steps);
    steps := First(EMPTY, Issue(ticket), steps);
  }

  function AfterAgentClaim(ticket: Ticket): State {
    State([ticket.(state := AgentClaimed, agentClaimed := true)], [], [0], map[ticket.chat := 0], map[],
          map[0 := Waiting(0, ticket.chat)], Idle, false, [], false)
  }

  /** The settlement completes the ticket while its submission times out, and the late overwrite takes that back. */
  lemma CompletedIsLost(ticket: Ticket, now: int, reply: Reply) returns (before: seq<Step>, after: seq<Step>)
    requires Ordinary(ticket, now, reply)
    ensures Feasible(EMPTY, before) && Feasible(EMPTY, after)
    ensures |Run(EMPTY, before).rows| == 1 && Run(EMPTY, before).rows[0].state.Completed?
    ensures |Run(EMPTY, after).rows| == 1 && Run(EMPTY, after).rows[0].state.Timeout?
    ensures HasCompletedJob(Run(EMPTY, after).staged, 0)
  {
    var s := AfterAgentClaim(ticket);
    var closed := AfterClose(ticket, reply);
    var lost := Apply(closed, Overwrite(0));
    assert CompletedJob(lost.staged[0], 0);
    assert Run(lost, []) == lost && Run(closed, []) == closed;
    after := First(closed, Overwrite(0), []);
    after := ClosingRun(s, ticket, reply, after);
    before := ClosingRun(s, ticket, reply, []);
    var _, b := Claimed(ticket, now, before);
    var _, a := Claimed(ticket, now, after);
    before, after := b, a;
  }

  lemma ClosingRun(s: State, ticket: Ticket, reply: Reply, rest: seq<Step>) returns (steps: seq<Step>)
    requires s == AfterAgentClaim(ticket) && !Unavailable(reply)
    requires Feasible(AfterClose(ticket, reply), rest)
    ensures Feasible(s, steps) && Run(s, steps) == Run(AfterClose(ticket, reply), rest)
  {
    var looking := Apply(s, LookUp(ticket.chat, ticket.message, reply));
    var checked := Apply(looking, Check);
    steps := StagedRun(checked, ticket, reply, rest);
    steps := First(looking, Check, steps);
    steps := First(s, LookUp(ticket.chat, ticket.message, reply), steps);
  }

  lemma StagedRun(s: State, ticket: Ticket, reply: Reply, rest: seq<Step>) returns (steps: seq<Step>)
    requires !Unavailable(reply)
    requires s == AfterAgentClaim(ticket).(settlement := Checked(0, ticket.chat, ticket.message, reply))
    requires Feasible(AfterClose(ticket, reply), rest)
    ensures Feasible(s, steps) && Run(s, steps) == Run(AfterClose(ticket, reply), rest)
  {
    var staged := Apply(s, Stage(Job));
    var kept := Apply(staged, Contract(true));
    steps := TimedOutRun(kept, ticket, reply, rest);
    steps := First(staged, Contract(true), steps);
    steps := First(s, Stage(Job), steps);
  }

  lemma TimedOutRun(s: State, ticket: Ticket, reply: Reply, rest: seq<Step>) returns (steps: seq<Step>)
    requires !Unavailable(reply)
    requires s == AfterAgentClaim(ticket).(staged := [Staging(0, true, reply.text, ticket.chat, ticket.message)],
                    settlement := Closing(0, ticket.chat, ticket.message, Completed, reply.text, true))
    requires Feasible(AfterClose(ticket, reply), rest)
    ensures Feasible(s, steps) && Run(s, steps) == Run(AfterClose(ticket, reply), rest)
  {
    var timedOut := Apply(s, GiveUp(0, Timeout, NoJob));
    assert Apply(timedOut, Close) == AfterClose(ticket, reply);
    steps := First(timedOut, Close, rest);
    steps := First(s, GiveUp(0, Timeout, NoJob), steps);
  }

  function AfterClose(ticket: Ticket, reply: Reply): State {
    State([ticket.(state := Completed, agentClaimed := true, reply := reply.text)],
          [Staging(0, true, reply.text, ticket.chat, ticket.message)], [0], map[ticket.chat := 0], map[ticket.chat := 0],
          map[0 := Overwriting(0, ticket.chat, Timeout)], Idle, false, [], false)
  }
}

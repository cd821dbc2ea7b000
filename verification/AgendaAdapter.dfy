/**
  The agenda service adapter: the ticket table, the process-local maps and the durable reply outbox, with the methods
  that work on them. Every critical section is one step of the protocol, from any state that other submissions, the
  settlement thread, the agent or a restart may have left; whole calls are runs of it.
 */
module AgendaAdapter {
  import opened AgendaTickets
  import opened AgendaProtocol
  import Text

  /** How a submission that was let in ends: with a reply, or giving up. */
  datatype Ending = Returned | GaveUp(to: TicketState, bridge: Bridge)

  class Adapter {
    const table: TicketTable
    var active: map<string, nat>
    var completed: map<string, nat>
    var staged: seq<Staging>

    /** A new process over an existing table and reply outbox. */
    constructor (table: TicketTable, staged: seq<Staging>)
      ensures this.table == table && this.staged == staged && active == map[] && completed == map[]
    {
      this.table, this.staged := table, staged;
      active, completed := map[], map[];
    }

    /** The adapter holds what the state says. */
    ghost predicate Shows(s: State)
      reads this, table
    {
      table.rows == s.rows && active == s.active && completed == s.completed && staged == s.staged
    }

    /** On connecting, unclaimed dispatches are issued again. */
    method Connect(ghost s: State) returns (changed: nat)
      requires Shows(s)
      modifies table
      ensures Shows(Apply(s, Requeue))
      ensures changed == |set i | 0 <= i < |s.rows| && table.rows[i] != s.rows[i]|
    {
      changed := table.RequeueUnclaimed();
    }

    /** The durable reply bridge; `bridge` is how it answers. */
    method StageTerminal(job: Staging, bridge: Bridge) returns (ok: bool)
      modifies this`staged
      ensures staged == Recorded(old(staged), bridge, job)
      ensures ok <==> bridge.Job? || (bridge.NoJob? && !(job.completed && job.text != ""))
    {
      if Stored(bridge) {
        staged := staged + [job];
      }
      ok := bridge.Job? || (bridge.NoJob? && !(job.completed && job.text != ""));
    }

    // ----- A submission -----

    method ClaimSection(ghost s: State, ghost c: nat, t: nat, now: int) returns (result: ClaimResult)
      requires Shows(s) && c !in s.submissions
      modifies table
      ensures result.Accepted? <==> Claimable(s.rows, t, now)
      ensures result.Accepted? ==> result.ticket == s.rows[t] && Shows(Apply(s, Submit(c, t, now)))
      ensures !result.Accepted? ==> Shows(s)
    {
      result := table.ClaimIssued(t, now);
    }

    method EnterSection(ghost s: State, ghost c: nat, t: nat, chat: string) returns (ok: bool)
      requires Shows(s) && Enabled(s, Enter(c)) && s.submissions[c] == Entering(t, chat)
      modifies this
      ensures Shows(Apply(s, Enter(c)))
      ensures ok <==> c in Apply(s, Enter(c)).submissions
    {
      if chat in active {
        return false;
      }
      active, completed := active[chat := t], completed - {chat};
      return true;
    }

    method GiveUpSection(ghost s: State, ghost c: nat, t: nat, chat: string, ghost to: TicketState, bridge: Bridge)
      requires Shows(s) && Enabled(s, GiveUp(c, to, bridge)) && s.submissions[c] == Waiting(t, chat)
      modifies this
      ensures Shows(Apply(s, GiveUp(c, to, bridge)))
    {
      var _ := StageTerminal(Staging(t, false, "", chat, ""), bridge);
    }

    method OverwriteSection(ghost s: State, ghost c: nat, t: nat, to: TicketState)
      requires Shows(s) && Enabled(s, Overwrite(c)) && s.submissions[c].ticket == t && s.submissions[c].to == to
      modifies table
      ensures Shows(Apply(s, Overwrite(c)))
    {
      table.Complete(t, to);
    }

    method LeaveSection(ghost s: State, ghost c: nat, chat: string)
      requires Shows(s) && Enabled(s, Leave(c)) && s.submissions[c].chat == chat
      modifies this
      ensures Shows(Apply(s, Leave(c)))
    {
      active := active - {chat};
    }

    // ----- A settlement -----

    /** The ticket that the chat has active, if it is with the agent and bound to the message. */
    method CheckSection(ghost s: State, t: nat, message: string) returns (ok: bool)
      requires Shows(s) && s.settlement.Looking? && s.settlement.ticket == t && s.settlement.message == message
      ensures Shows(Apply(s, Check))
      ensures ok <==> Apply(s, Check).settlement.Checked?
    {
      var rows := table.rows;
      ok := t < |rows| && rows[t].state.AgentClaimed? && rows[t].message == message;
    }

    method StageSection(ghost s: State, t: nat, chat: string, message: string, reply: Reply, bridge: Bridge) returns (ok: bool)
      requires Shows(s) && s.settlement == Checked(t, chat, message, reply)
      modifies this
      ensures Shows(Apply(s, Stage(bridge)))
      ensures !ok ==> Apply(s, Stage(bridge)).settlement == Closing(t, chat, message, Failed, "", false)
      ensures ok && Unavailable(reply) ==> Apply(s, Stage(bridge)).settlement == Closing(t, chat, message, Failed, "", true)
      ensures ok && !Unavailable(reply) ==> Apply(s, Stage(bridge)).settlement == Contracting(t, chat, message, reply)
      ensures ok <==> bridge.Job? || (bridge.NoJob? && Unavailable(reply))
      ensures staged == (if Keeps(bridge) then s.staged + [Staging(t, !Unavailable(reply), if Unavailable(reply) then "" else reply.text, chat, message)]
                         else s.staged)
      ensures active == s.active && completed == s.completed
    {
      var done := !Unavailable(reply);
      ok := StageTerminal(Staging(t, done, if done then reply.text else "", chat, message), bridge);
    }

    method CloseSection(ghost s: State, t: nat, chat: string, to: TicketState, text: string, remember: bool)
      requires Shows(s) && s.settlement.Closing? && s.settlement.ticket == t && s.settlement.chat == chat
      requires s.settlement.to == to && s.settlement.text == text && s.settlement.remember == remember
      modifies this, table
      ensures Shows(Apply(s, Close))
      ensures staged == s.staged && active == s.active && completed == (if remember then s.completed[chat := t] else s.completed)
    {
      table.CompleteClaimed(t, to, text);
      if remember {
        completed := completed[chat := t];
      }
    }

    // ----- Whole calls, undisturbed -----

    /**
      What an accepted submission that nothing disturbs leaves behind. Giving up ends the ticket and stages one job without
      a completed reply, if the bridge stored it; otherwise the ticket is dispatched. The chat is free again.
     */
    ghost predicate Submitted(s: State, t: nat, ending: Ending)
      requires t < |s.rows|
      reads this, table
    {
      var chat := s.rows[t].chat;
      && table.rows == s.rows[t := if ending.GaveUp? then s.rows[t].(state := ending.to, reply := "") else s.rows[t].(state := Dispatched)]
      && staged == (if ending.GaveUp? && Keeps(ending.bridge) then s.staged + [Staging(t, false, "", chat, "")] else s.staged)
      && active == s.active && chat !in active && completed == s.completed - {chat}
    }

    /** One call of the ticket ingress is a run: rejected it does nothing, at a busy chat it leaves the ticket dispatched. */
    method SubmitTicket(ghost s: State, ghost c: nat, t: nat, now: int, ending: Ending) returns (accepted: bool, ghost steps: seq<Step>)
      requires Shows(s) && c !in s.submissions && (ending.GaveUp? ==> ending.to.Timeout? || ending.to.Failed?)
      modifies this, table
      ensures Feasible(s, steps) && Shows(Run(s, steps))
      ensures accepted <==> Claimable(s.rows, t, now) && s.rows[t].chat !in s.active
      ensures Claimable(s.rows, t, now) && !accepted ==> table.rows == s.rows[t := s.rows[t].(state := Dispatched)]
      ensures !Claimable(s.rows, t, now) ==> steps == []
      ensures accepted ==> Submitted(s, t, ending)
      ensures !accepted ==> staged == s.staged && active == s.active && completed == s.completed
    {
      steps := [];
      var result := ClaimSection(s, c, t, now);
      if !result.Accepted? {
        return false, [];
      }
      var chat := result.ticket.chat;
      ghost var claimed := Apply(s, Submit(c, t, now));
      accepted, steps := EnterTicket(claimed, c, t, chat, ending);
      steps := First(s, Submit(c, t, now), steps);
    }

    /** The part behind the claim. */
    method EnterTicket(ghost s: State, ghost c: nat, t: nat, chat: string, ending: Ending) returns (accepted: bool, ghost steps: seq<Step>)
      requires Shows(s) && c in s.submissions && s.submissions[c] == Entering(t, chat) && t < |s.rows|
      requires ending.GaveUp? ==> ending.to.Timeout? || ending.to.Failed?
      modifies this, table
      ensures Feasible(s, steps) && Shows(Run(s, steps))
      ensures accepted <==> chat !in s.active
      ensures accepted ==>
                && table.rows == (if ending.GaveUp? then s.rows[t := s.rows[t].(state := ending.to, reply := "")] else s.rows)
                && staged == (if ending.GaveUp? && Keeps(ending.bridge) then s.staged + [Staging(t, false, "", chat, "")] else s.staged)
                && active == s.active && completed == s.completed - {chat}
      ensures !accepted ==> table.rows == s.rows && staged == s.staged && active == s.active && completed == s.completed
    {
      steps := [];
      accepted := EnterSection(s, c, t, chat);
      if accepted {
        ghost var entered := Apply(s, Enter(c));
        steps := EndSubmission(entered, c, t, chat, ending);
        assert entered.active - {chat} == s.active;
      }
      steps := First(s, Enter(c), steps);
    }

    method EndSubmission(ghost s: State, ghost c: nat, t: nat, chat: string, ending: Ending) returns (ghost steps: seq<Step>)
      requires Shows(s) && c in s.submissions && s.submissions[c] == Waiting(t, chat)
      requires ending.GaveUp? ==> ending.to.Timeout? || ending.to.Failed?
      modifies this, table
      ensures Feasible(s, steps) && Shows(Run(s, steps))
      ensures table.rows == (if ending.GaveUp? && t < |s.rows| then s.rows[t := s.rows[t].(state := ending.to, reply := "")] else s.rows)
      ensures staged == (if ending.GaveUp? && Keeps(ending.bridge) then s.staged + [Staging(t, false, "", chat, "")] else s.staged)
      ensures active == s.active - {chat} && completed == s.completed
    {
      ghost var leaving: State;
      if ending.GaveUp? {
        GiveUpSection(s, c, t, chat, ending.to, ending.bridge);
        ghost var given := Apply(s, GiveUp(c, ending.to, ending.bridge));
        OverwriteSection(given, c, t, ending.to);
        leaving := Apply(given, Overwrite(c));
        LeaveSection(leaving, c, chat);
        steps := First(leaving, Leave(c), []);
        steps := First(given, Overwrite(c), steps);
        steps := First(s, GiveUp(c, ending.to, ending.bridge), steps);
      } else {
        leaving := Apply(s, Return(c));
        LeaveSection(leaving, c, chat);
        steps := First(leaving, Leave(c), []);
        steps := First(s, Return(c), steps);
      }
    }

    /**
      What a settlement that nothing disturbs leaves behind at a correlated ticket. It ends completed with the reply, or
      failed without one. The bridge holds a job of the ticket, its chat and message, if it stored one: completed, with the
      text, exactly if the reply is available. The chat remembers the ticket if it was completed, and if an unavailable reply
      was taken by the bridge.
     */
    ghost predicate Settled(s: State, t: nat, chat: string, message: string, reply: Reply, bridge: Bridge, kept: bool)
      requires t < |s.rows|
      reads this, table
    {
      var available := !Text.Blank(reply.text) && !reply.diagnostic;
      var done := available && bridge.Job? && kept;
      && table.rows == s.rows[t := if done then s.rows[t].(state := Completed, reply := reply.text)
                                   else s.rows[t].(state := Failed, reply := "")]
      && staged == (if Keeps(bridge) then s.staged + [Staging(t, available, if available then reply.text else "", chat, message)]
                    else s.staged)
      && completed == (if done || (!available && !bridge.Raised?) then s.completed[chat := t] else s.completed)
    }

    /**
      One settlement is a run. It reports success exactly when a chat with an agent-claimed ticket bound to the message
      has an available reply that the bridge stored and the continuation contract kept; then the ticket is completed
      with that reply. At a chat without an active ticket it only tells whether one was settled before.
     */
    method SettlePublicModelTerminal(ghost s: State, chat: string, message: string, reply: Reply, bridge: Bridge, kept: bool)
      returns (ok: bool, ghost steps: seq<Step>)
      requires Shows(s) && s.settlement.Idle?
      modifies this, table
      ensures Feasible(s, steps) && Shows(Run(s, steps))
      ensures chat !in s.active ==> steps == [] && (ok <==> chat in s.completed)
      ensures chat in s.active ==>
        (ok <==> Correlated(s, s.active[chat], message) && !Unavailable(reply) && bridge.Job? && kept)
      ensures chat in s.active && Correlated(s, s.active[chat], message) ==>
                Settled(s, s.active[chat], chat, message, reply, bridge, kept)
      ensures !(chat in s.active && Correlated(s, s.active[chat], message)) ==>
                table.rows == s.rows && staged == s.staged && completed == s.completed
      ensures active == s.active
    {
      steps := [];
      if chat !in active {
        return chat in completed, [];
      }
      var t := active[chat];
      ghost var looking := Apply(s, LookUp(chat, message, reply));
      ok := CheckSection(looking, t, message);
      ghost var checked := Apply(looking, Check);
      if ok {
        ok, steps := SettleChecked(checked, t, chat, message, reply, bridge, kept);
      }
      steps := First(looking, Check, steps);
      steps := First(s, LookUp(chat, message, reply), steps);
    }

    method SettleContracting(ghost s: State, t: nat, chat: string, message: string, reply: Reply, kept: bool)
      returns (ghost steps: seq<Step>)
      requires Shows(s) && s.settlement == Contracting(t, chat, message, reply) && t < |s.rows| && s.rows[t].state.AgentClaimed?
      modifies this, table
      ensures Feasible(s, steps) && Shows(Run(s, steps))
      ensures table.rows == s.rows[t := if kept then s.rows[t].(state := Completed, reply := reply.text)
                                        else s.rows[t].(state := Failed, reply := "")]
      ensures completed == (if kept then s.completed[chat := t] else s.completed)
      ensures staged == s.staged && active == s.active
    {
      ghost var contracted := Apply(s, Contract(kept));
      if kept {
        CloseSection(contracted, t, chat, Completed, reply.text, true);
      } else {
        CloseSection(contracted, t, chat, Failed, "", false);
      }
      steps := First(contracted, Close, []);
      steps := First(s, Contract(kept), steps);
    }

    method SettleChecked(ghost s: State, t: nat, chat: string, message: string, reply: Reply, bridge: Bridge, kept: bool)
      returns (ok: bool, ghost steps: seq<Step>)
      requires Shows(s) && s.settlement == Checked(t, chat, message, reply) && t < |s.rows| && s.rows[t].state.AgentClaimed?
      modifies this, table
      ensures Feasible(s, steps) && Shows(Run(s, steps))
      ensures ok <==> !Unavailable(reply) && bridge.Job? && kept
      ensures Settled(s, t, chat, message, reply, bridge, kept) && active == s.active
    {
      var held := StageSection(s, t, chat, message, reply, bridge);
      ghost var staging := Apply(s, Stage(bridge));
      if held && !Unavailable(reply) {
        ok := kept;
        steps := SettleContracting(staging, t, chat, message, reply, kept);
      } else {
        ok := false;
        CloseSection(staging, t, chat, Failed, "", held);
        steps := First(staging, Close, []);
      }
      steps := First(s, Stage(bridge), steps);
    }

    method DisconnectOne(ghost s: State, t: nat, bridge: Bridge)
      requires Shows(s) && Leaves(s, t)
      modifies this, table
      ensures Shows(Left(s, bridge))
    {
      var _ := StageTerminal(Staging(t, false, "", "", ""), bridge);
      table.Complete(t, Failed);
    }

    /** One disconnect is a run: every active ticket is staged and overwritten as failed, then the maps are cleared. */
    method Disconnect(ghost s: State, tickets: seq<nat>, bridges: nat -> Bridge) returns (ghost steps: seq<Step>)
      requires Shows(s) && Enabled(s, StartDisconnect(tickets))
      modifies this, table
      ensures Feasible(s, steps) && Shows(Run(s, steps))
      ensures active == map[] && completed == map[]
      ensures AllFailed(s.rows, table.rows, tickets)
      ensures staged == s.staged + Interrupted(tickets, bridges)
    {
      ghost var now := Apply(s, StartDisconnect(tickets));
      steps := First(s, StartDisconnect(tickets), []);
      for i := 0 to |tickets|
        invariant Feasible(s, steps) && Run(s, steps) == now && Shows(now)
        invariant LeftUpTo(s, now, tickets, bridges, i)
      {
        DisconnectOne(now, tickets[i], bridges(i));
        steps := LeftByTwoSteps(s, steps, now, bridges(i));
        LeftNext(s, now, tickets, bridges, i);
        now := Left(now, bridges(i));
      }
      assert tickets[..|tickets|] == tickets;
      active, completed := map[], map[];
      steps := Last(s, steps, EndDisconnect);
    }
  }

  /** A disconnect comes to the ticket next. */
  ghost predicate Leaves(s: State, t: nat) {
    s.leaving != [] && s.leaving[0] == t && !s.handed
  }

  /** The state after a disconnect has dealt with one ticket. */
  ghost function Left(s: State, bridge: Bridge): State
    requires s.leaving != []
  {
    s.(staged := Recorded(s.staged, bridge, Staging(s.leaving[0], false, "", "", "")),
       rows := OverwrittenRows(s.rows, s.leaving[0], Failed), leaving := s.leaving[1..], handed := false)
  }

  lemma LeftByTwoSteps(s: State, steps: seq<Step>, now: State, bridge: Bridge) returns (longer: seq<Step>)
    requires Feasible(s, steps) && Run(s, steps) == now && now.leaving != [] && !now.handed
    ensures Feasible(s, longer) && Run(s, longer) == Left(now, bridge)
  {
    longer := Last(s, steps, DisconnectStage(bridge));
    longer := Last(s, longer, DisconnectOverwrite);
  }

  /** The tickets have failed, and no other row has changed. */
  ghost predicate AllFailed(before: seq<Ticket>, after: seq<Ticket>, tickets: seq<nat>) {
    && |after| == |before|
    && forall t :: 0 <= t < |before| ==>
         after[t] == if t in tickets then before[t].(state := Failed, reply := "") else before[t]
  }

  lemma FailedStep(before: seq<Ticket>, rows: seq<Ticket>, tickets: seq<nat>, i: nat)
    requires i < |tickets| && AllFailed(before, rows, tickets[..i])
    ensures AllFailed(before, OverwrittenRows(rows, tickets[i], Failed), tickets[..i + 1])
  {
    assert tickets[..i + 1] == tickets[..i] + [tickets[i]];
  }

  /** A disconnect has dealt with the first tickets. */
  ghost predicate LeftUpTo(s: State, now: State, tickets: seq<nat>, bridges: nat -> Bridge, i: nat) {
    && i <= |tickets| && now.disconnecting && now.leaving == tickets[i..] && !now.handed
    && AllFailed(s.rows, now.rows, tickets[..i]) && now.staged == s.staged + Interrupted(tickets[..i], bridges)
  }

  lemma LeftNext(s: State, now: State, tickets: seq<nat>, bridges: nat -> Bridge, i: nat)
    requires i < |tickets| && LeftUpTo(s, now, tickets, bridges, i)
    ensures LeftUpTo(s, Left(now, bridges(i)), tickets, bridges, i + 1)
  {
    FailedStep(s.rows, now.rows, tickets, i);
    assert tickets[..i + 1][..i] == tickets[..i];
  }

  /** The bridge has the job although it may have raised. */
  predicate Keeps(bridge: Bridge) {
    match bridge
    case Job => true
    case NoJob => false
    case Raised(stored) => stored
  }

  /** The jobs that a disconnect leaves in the outbox: one without a completed reply for every ticket whose bridge kept it. */
  ghost function Interrupted(tickets: seq<nat>, bridges: nat -> Bridge): seq<Staging> {
    if tickets == [] then []
    else
      var last := |tickets| - 1;
      Interrupted(tickets[..last], bridges) + if Keeps(bridges(last)) then [Staging(tickets[last], false, "", "", "")] else []
  }

  /** A ticket that the settlement of a message may end. */
  predicate Correlated(s: State, t: nat, message: string) {
    t < |s.rows| && s.rows[t].state.AgentClaimed? && s.rows[t].message == message
  }
}

/**
  The table of agenda service tickets and the SQL statements that move a ticket through its life.
  A ticket is named by its row; rows are never removed.
 */
module AgendaTickets {
  datatype TicketState = Issued | Dispatched | AgentClaimed | Completed | Failed | Timeout | Expired

  /** `chat` is the conversation that the trusted work partition determines; `attested` is the identity and payload check. */
  datatype Ticket = Ticket(state: TicketState, agentClaimed: bool, expires: int, chat: string, message: string,
                           attested: bool, reply: string)

  datatype ClaimResult = Accepted(ticket: Ticket) | NotIssued | TicketExpired | NotAttested

  /** States from which a ticket can still reach its agent turn. */
  predicate Open(t: Ticket) {
    t.state.Issued? || t.state.Dispatched?
  }

  function Requeued(t: Ticket): Ticket {
    if t.state.Dispatched? && !t.agentClaimed then t.(state := Issued) else t
  }

  function Aged(t: Ticket, now: int): Ticket {
    if t.state.Issued? && t.expires < now then t.(state := Expired) else t
  }

  function RequeuedRows(rows: seq<Ticket>): (r: seq<Ticket>)
    ensures |r| == |rows|
    ensures forall i :: 0 <= i < |rows| ==>
              r[i] == if rows[i].state.Dispatched? && !rows[i].agentClaimed then rows[i].(state := Issued) else rows[i]
  {
    seq(|rows|, i requires 0 <= i < |rows| => Requeued(rows[i]))
  }

  function AgedRows(rows: seq<Ticket>, now: int): (r: seq<Ticket>)
    ensures |r| == |rows|
    ensures forall i :: 0 <= i < |rows| ==>
              r[i] == if rows[i].state.Issued? && rows[i].expires < now then rows[i].(state := Expired) else rows[i]
  {
    seq(|rows|, i requires 0 <= i < |rows| => Aged(rows[i], now))
  }

  predicate Claimable(rows: seq<Ticket>, t: nat, now: int) {
    t < |rows| && rows[t].state.Issued? && rows[t].expires >= now && rows[t].attested
  }

  /** A rejected claim rolls back whatever it had written. */
  function ClaimedRows(rows: seq<Ticket>, t: nat, now: int): seq<Ticket> {
    if Claimable(rows, t, now) then rows[t := rows[t].(state := Dispatched)] else rows
  }

  /** The completion that only ends a live agent turn. */
  function SettledRows(rows: seq<Ticket>, t: nat, to: TicketState, reply: string): seq<Ticket> {
    if t < |rows| && rows[t].state.AgentClaimed? then rows[t := rows[t].(state := to, reply := reply)] else rows
  }

  /** The completion without a guard. */
  function OverwrittenRows(rows: seq<Ticket>, t: nat, to: TicketState): seq<Ticket> {
    if t < |rows| then rows[t := rows[t].(state := to, reply := "")] else rows
  }

  /** The SQLite table; every method is one statement or one transaction. */
  class TicketTable {
    var rows: seq<Ticket>

    constructor (rows: seq<Ticket>)
      ensures this.rows == rows
    {
      this.rows := rows;
    }

    method RequeueUnclaimed() returns (changed: nat)
      modifies this
      ensures rows == RequeuedRows(old(rows))
      ensures changed == |set i | 0 <= i < |rows| && rows[i] != old(rows)[i]|
    {
      changed := 0;
      ghost var touched: set<int> := {};
      var i := 0;
      while i < |rows|
        invariant 0 <= i <= |rows| == |old(rows)|
        invariant forall k :: 0 <= k < i ==> rows[k] == Requeued(old(rows)[k])
        invariant forall k :: i <= k < |rows| ==> rows[k] == old(rows)[k]
        invariant touched == set k | 0 <= k < i && rows[k] != old(rows)[k]
        invariant changed == |touched|
      {
        if rows[i].state.Dispatched? && !rows[i].agentClaimed {
          rows := rows[i := rows[i].(state := Issued)];
          changed := changed + 1;
          touched := touched + {i};
        }
        i := i + 1;
      }
      assert rows == RequeuedRows(old(rows));
      assert touched == set i | 0 <= i < |rows| && rows[i] != old(rows)[i];
    }

    method ClaimIssued(t: nat, now: int) returns (result: ClaimResult)
      modifies this
      ensures rows == ClaimedRows(old(rows), t, now)
      ensures result.Accepted? <==> Claimable(old(rows), t, now)
      ensures result.Accepted? ==> result.ticket == old(rows)[t]
    {
      var snapshot := rows;
      if t >= |rows| || !rows[t].state.Issued? {
        return NotIssued;
      }
      if rows[t].expires < now {
        rows := rows[t := rows[t].(state := Expired)];
        rows := snapshot;
        return TicketExpired;
      }
      if !rows[t].attested {
        return NotAttested;
      }
      rows := rows[t := rows[t].(state := Dispatched)];
      return Accepted(snapshot[t]);
    }

    /** Ages the issued tickets and picks the first one left, the length of the table if there is none. */
    method NextIssued(now: int) returns (t: nat)
      modifies this
      ensures rows == AgedRows(old(rows), now)
      ensures t <= |rows| && (t < |rows| ==> rows[t].state.Issued?)
      ensures forall k :: 0 <= k < t ==> !rows[k].state.Issued?
    {
      var i := 0;
      while i < |rows|
        invariant 0 <= i <= |rows| == |old(rows)|
        invariant forall k :: 0 <= k < i ==> rows[k] == Aged(old(rows)[k], now)
        invariant forall k :: i <= k < |rows| ==> rows[k] == old(rows)[k]
      {
        rows := rows[i := Aged(rows[i], now)];
        i := i + 1;
      }
      assert rows == AgedRows(old(rows), now);
      t := 0;
      while t < |rows| && !rows[t].state.Issued?
        invariant 0 <= t <= |rows|
        invariant rows == AgedRows(old(rows), now)
        invariant forall k :: 0 <= k < t ==> !rows[k].state.Issued?
      {
        t := t + 1;
      }
    }

    method CompleteClaimed(t: nat, to: TicketState, reply: string)
      modifies this
      ensures rows == SettledRows(old(rows), t, to, reply)
    {
      if t < |rows| && rows[t].state.AgentClaimed? {
        rows := rows[t := rows[t].(state := to, reply := reply)];
      }
    }

    method Complete(t: nat, to: TicketState)
      modifies this
      ensures rows == OverwrittenRows(old(rows), t, to)
    {
      if t < |rows| {
        rows := rows[t := rows[t].(state := to, reply := "")];
      }
    }
  }
}

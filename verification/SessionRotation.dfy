/**
  The rotation of oversized sessions (scripts/rotate_wecom_sessions_for_latency.py): which sessions are candidates,
  and what rotating them does to the session table, the routing table and the routing mirror file.
 */
module SessionRotation {
  import opened Options

  /** `wecom` says that the source is `wecom_callback`; a NULL message count is 0. */
  datatype Session = Session(wecom: bool, user: string, archived: bool, ended: bool, messages: int)

  /** A routing entry: unreadable, or naming a session ("" when it names none) with a prompt size if that is a number. */
  datatype Entry = Unreadable | Entry(session: string, tokens: Option<int>)

  datatype Route = Route(rowid: int, entry: Entry)

  /** The mirror file: a mapping whose values may name a session. */
  datatype Mirror = Absent | NotAMapping | Mapping(entries: map<string, Option<string>>)

  datatype Limits = Limits(users: set<string>, minMessages: int, maxTokens: int)

  datatype Candidate = Candidate(messages: int, tokens: int)

  function Max(a: int, b: int): int {
    if a < b then b else a
  }

  predicate Live(s: Session, limits: Limits) {
    s.wecom && s.user in limits.users && !s.archived && !s.ended
  }

  /** The prompt size that a route reports for a session. */
  predicate Reports(route: Route, id: string) {
    route.entry.Entry? && route.entry.session == id && route.entry.tokens.Some?
  }

  /** The largest prompt size reported for a session, 0 if there is none. */
  function PromptTokens(routes: seq<Route>, id: string): (tokens: int)
    ensures tokens >= 0
  {
    if routes == [] then 0
    else
      var last := routes[|routes| - 1];
      var before := PromptTokens(routes[..|routes| - 1], id);
      if Reports(last, id) then Max(before, last.entry.tokens.value) else before
  }

  /** Nothing reported exceeds it, and a positive value is one of those reported. */
  lemma {:induction false} PromptTokensIsMaximum(routes: seq<Route>, id: string)
    ensures forall route :: route in routes && Reports(route, id) ==> route.entry.tokens.value <= PromptTokens(routes, id)
    ensures PromptTokens(routes, id) > 0 ==>
      exists route :: route in routes && Reports(route, id) && route.entry.tokens.value == PromptTokens(routes, id)
  {
    if routes != [] {
      var front, last := routes[..|routes| - 1], routes[|routes| - 1];
      PromptTokensIsMaximum(front, id);
      assert routes == front + [last];
      assert forall route :: route in routes <==> route in front || route == last;
    }
  }

  lemma {:induction false} PromptTokensGrow(routes: seq<Route>, k: nat, id: string)
    requires k <= |routes|
    ensures PromptTokens(routes[..k], id) <= PromptTokens(routes, id)
    decreases |routes| - k
  {
    if k < |routes| {
      assert routes[..k + 1][..k] == routes[..k];
      PromptTokensGrow(routes, k + 1, id);
    } else {
      assert routes[..k] == routes;
    }
  }

  predicate Oversized(s: Session, routes: seq<Route>, id: string, limits: Limits) {
    s.messages >= Max(1, limits.minMessages) || PromptTokens(routes, id) >= Max(1, limits.maxTokens)
  }

  /** The one-line specification of the scan. */
  function Candidates(sessions: map<string, Session>, routes: seq<Route>, limits: Limits): map<string, Candidate> {
    map id | id in sessions && Live(sessions[id], limits) && Oversized(sessions[id], routes, id, limits)
      :: Candidate(sessions[id].messages, PromptTokens(routes, id))
  }

  /** Who is selected: the open sessions of the users that are long, or for which a route reports a large prompt. */
  lemma SelectedExactly(sessions: map<string, Session>, routes: seq<Route>, limits: Limits, id: string)
    ensures id in Candidates(sessions, routes, limits) <==>
              && id in sessions && sessions[id].wecom && sessions[id].user in limits.users
              && !sessions[id].archived && !sessions[id].ended
              && (|| (sessions[id].messages >= 1 && sessions[id].messages >= limits.minMessages)
                  || exists route :: route in routes && route.entry.Entry? && route.entry.session == id && route.entry.tokens.Some?
                                     && route.entry.tokens.value >= 1 && route.entry.tokens.value >= limits.maxTokens)
    ensures id in Candidates(sessions, routes, limits) ==>
              Candidates(sessions, routes, limits)[id] == Candidate(sessions[id].messages, PromptTokens(routes, id))
  {
    PromptTokensIsMaximum(routes, id);
    assert forall route :: route in routes && Reports(route, id) ==> route.entry.Entry?;
  }

  /** A row while it is collected; the prompt size is missing until a pass sets it. */
  datatype Row = Row(messages: int, tokens: Option<int>)

  function Tokens(row: Row): int {
    if row.tokens.Some? then row.tokens.value else 0
  }

  /** A pass over the routes: every known row learns its prompt size. */
  method ScanRoutes(before: map<string, Row>, routes: seq<Route>) returns (rows: map<string, Row>)
    requires forall id :: id in before ==> 0 <= Tokens(before[id]) <= PromptTokens(routes, id)
    ensures rows.Keys == before.Keys
    ensures forall id :: id in rows ==>
      rows[id].messages == before[id].messages && Tokens(rows[id]) == PromptTokens(routes, id)
  {
    rows := before;
    for i := 0 to |routes|
      invariant rows.Keys == before.Keys
      invariant forall id :: id in rows ==> rows[id].messages == before[id].messages
      invariant forall id :: id in rows ==> Tokens(rows[id]) == Max(Tokens(before[id]), PromptTokens(routes[..i], id))
    {
      assert routes[..i + 1][..i] == routes[..i];
      var entry := routes[i].entry;
      if entry.Entry? && entry.session in rows && entry.tokens.Some? {
        var row := rows[entry.session];
        rows := rows[entry.session := row.(tokens := Some(Max(Tokens(row), entry.tokens.value)))];
      }
    }
    assert routes[..|routes|] == routes;
  }

  /** The rows of a query over the live sessions of the users. */
  function Query(sessions: map<string, Session>, limits: Limits, minMessages: Option<int>): map<string, Row> {
    map id | id in sessions && Live(sessions[id], limits)
             && (minMessages.Some? ==> sessions[id].messages >= minMessages.value)
      :: Row(sessions[id].messages, None)
  }

  /** `after` has the row of `before` up to a missing prompt size standing for 0. */
  predicate SameRow(before: Row, after: Row) {
    after.messages == before.messages && Tokens(after) == Tokens(before)
  }

  /** `setdefault` for every row of the second query. */
  method AddMissing(before: map<string, Row>, found: map<string, Row>) returns (rows: map<string, Row>)
    ensures forall id :: id in rows <==> id in before || id in found
    ensures forall id :: id in before ==> SameRow(before[id], rows[id])
    ensures forall id :: id in found && id !in before ==> SameRow(found[id], rows[id])
  {
    rows := before;
    var rest := found.Keys;
    while rest != {}
      invariant rest <= found.Keys
      invariant forall id :: id in rows <==> id in before || (id in found && id !in rest)
      invariant forall id :: id in before ==> SameRow(before[id], rows[id])
      invariant forall id :: id in found && id !in rest && id !in before ==> SameRow(found[id], rows[id])
      decreases |rest|
    {
      var id :| id in rest;
      rest := rest - {id};
      var row := if id in rows then rows[id] else found[id];
      rows := rows[id := row.(tokens := Some(Tokens(row)))];
    }
  }

  /** The scan: long sessions, their prompt sizes, all other live sessions, all prompt sizes again, and the filter. */
  method CandidateSessions(sessions: map<string, Session>, routes: seq<Route>, limits: Limits)
    returns (candidates: map<string, Candidate>)
    ensures candidates == Candidates(sessions, routes, limits)
  {
    if limits.users == {} {
      return map[];
    }
    var least := Max(1, limits.minMessages);
    var long, live := Query(sessions, limits, Some(least)), Query(sessions, limits, None);
    var measured := ScanRoutes(long, routes);
    var merged := AddMissing(measured, live);
    assert merged.Keys == live.Keys;
    var rows := ScanRoutes(merged, routes);
    assert forall id :: id in rows ==> rows[id].messages == sessions[id].messages;
    candidates := Filter(rows, limits);
    FilterSelects(sessions, routes, limits, rows);
  }

  /** The rows that reach a limit. */
  function Filter(rows: map<string, Row>, limits: Limits): map<string, Candidate> {
    map id | id in rows
             && (rows[id].messages >= Max(1, limits.minMessages) || Tokens(rows[id]) >= Max(1, limits.maxTokens))
      :: Candidate(rows[id].messages, Tokens(rows[id]))
  }

  lemma FilterSelects(sessions: map<string, Session>, routes: seq<Route>, limits: Limits, rows: map<string, Row>)
    requires forall id :: id in rows <==> id in sessions && Live(sessions[id], limits)
    requires forall id :: id in rows ==>
      rows[id].messages == sessions[id].messages && Tokens(rows[id]) == PromptTokens(routes, id)
    ensures Filter(rows, limits) == Candidates(sessions, routes, limits)
  {
  }

  // ----- Rotation -----

  /** The session that a route leads to; an unreadable entry leads to "". */
  function Target(route: Route): string {
    if route.entry.Entry? then route.entry.session else ""
  }

  ghost predicate DistinctRows(routes: seq<Route>) {
    forall i, j :: 0 <= i < j < |routes| ==> routes[i].rowid != routes[j].rowid
  }

  /** The rows that lead to one of the sessions, in order. */
  function Matching(routes: seq<Route>, ids: set<string>): seq<int> {
    if routes == [] then []
    else
      var n := |routes| - 1;
      Matching(routes[..n], ids) + if Target(routes[n]) in ids then [routes[n].rowid] else []
  }

  /** The routes that lead elsewhere, in order. */
  function Elsewhere(routes: seq<Route>, ids: set<string>): seq<Route> {
    if routes == [] then []
    else
      var n := |routes| - 1;
      Elsewhere(routes[..n], ids) + if Target(routes[n]) in ids then [] else [routes[n]]
  }

  function WithoutRow(routes: seq<Route>, rowid: int): seq<Route> {
    if routes == [] then []
    else
      var n := |routes| - 1;
      WithoutRow(routes[..n], rowid) + if routes[n].rowid == rowid then [] else [routes[n]]
  }

  function WithoutRows(routes: seq<Route>, rowids: seq<int>): seq<Route> {
    if rowids == [] then routes else WithoutRow(WithoutRows(routes, rowids[..|rowids| - 1]), rowids[|rowids| - 1])
  }

  // The four functions on a list that ends in a given element.

  lemma MatchingLast(front: seq<Route>, last: Route, ids: set<string>)
    ensures Matching(front + [last], ids) == Matching(front, ids) + if Target(last) in ids then [last.rowid] else []
  {
    assert (front + [last])[..|front|] == front;
  }

  lemma ElsewhereLast(front: seq<Route>, last: Route, ids: set<string>)
    ensures Elsewhere(front + [last], ids) == Elsewhere(front, ids) + if Target(last) in ids then [] else [last]
  {
    assert (front + [last])[..|front|] == front;
  }

  lemma WithoutRowLast(front: seq<Route>, last: Route, rowid: int)
    ensures WithoutRow(front + [last], rowid) == WithoutRow(front, rowid) + if last.rowid == rowid then [] else [last]
  {
    assert (front + [last])[..|front|] == front;
  }

  lemma WithoutRowsLast(routes: seq<Route>, rowids: seq<int>, rowid: int)
    ensures WithoutRows(routes, rowids + [rowid]) == WithoutRow(WithoutRows(routes, rowids), rowid)
  {
    assert (rowids + [rowid])[..|rowids|] == rowids;
  }

  lemma {:induction false} MatchingRowids(routes: seq<Route>, ids: set<string>)
    ensures forall route :: route in routes && Target(route) in ids ==> route.rowid in Matching(routes, ids)
    ensures forall rowid :: rowid in Matching(routes, ids) ==>
      exists route :: route in routes && route.rowid == rowid && Target(route) in ids
  {
    if routes != [] {
      var front, last := routes[..|routes| - 1], routes[|routes| - 1];
      MatchingRowids(front, ids);
      assert routes == front + [last];
      assert forall route :: route in routes <==> route in front || route == last;
    }
  }

  lemma NoMatches(routes: seq<Route>, ids: set<string>)
    ensures Matching(routes, ids) == [] <==> Unrouted(routes, ids)
  {
    MatchingRowids(routes, ids);
    if Matching(routes, ids) != [] {
      var rowid := Matching(routes, ids)[0];
      assert rowid in Matching(routes, ids);
      var route :| route in routes && route.rowid == rowid && Target(route) in ids;
    }
  }

  lemma {:induction false} WithoutOtherRow(routes: seq<Route>, rowid: int)
    requires forall route :: route in routes ==> route.rowid != rowid
    ensures WithoutRow(routes, rowid) == routes
  {
    if routes != [] {
      var n := |routes| - 1;
      WithoutOtherRow(routes[..n], rowid);
      assert routes[n] in routes;
    }
  }

  /** Deleting the matching rows one by one leaves exactly the routes that lead elsewhere. */
  lemma {:induction false} DeletingMatches(routes: seq<Route>, ids: set<string>)
    requires DistinctRows(routes)
    ensures WithoutRows(routes, Matching(routes, ids)) == Elsewhere(routes, ids)
  {
    if routes != [] {
      var n := |routes| - 1;
      var front, last := routes[..n], routes[n];
      assert routes == front + [last];
      DeletingMatches(front, ids);
      LastRowIsNew(front, last, ids);
      var rowids, kept := Matching(front, ids), Elsewhere(front, ids);
      MatchingLast(front, last, ids);
      ElsewhereLast(front, last, ids);
      WithoutRowsSnoc(front, last, rowids);
      assert rowids + [] == rowids && kept + [] == kept;
      if Target(last) in ids {
        WithoutRowsLast(routes, rowids, last.rowid);
        DropSnoc(kept, last);
      }
    }
  }

  lemma LastRowIsNew(front: seq<Route>, last: Route, ids: set<string>)
    requires DistinctRows(front + [last])
    ensures last.rowid !in Matching(front, ids)
    ensures forall route :: route in Elsewhere(front, ids) ==> route.rowid != last.rowid
  {
    var all := front + [last];
    forall route | route in front ensures route.rowid != last.rowid {
      var i :| 0 <= i < |front| && front[i] == route;
      assert all[i] == route && all[|front|] == last;
    }
    MatchingRowids(front, ids);
    ElsewhereIsPart(front, ids);
  }

  lemma {:induction false} ElsewhereIsPart(routes: seq<Route>, ids: set<string>)
    ensures forall route :: route in Elsewhere(routes, ids) <==> route in routes && Target(route) !in ids
  {
    if routes != [] {
      var front, last := routes[..|routes| - 1], routes[|routes| - 1];
      ElsewhereIsPart(front, ids);
      assert routes == front + [last];
      assert forall route :: route in routes <==> route in front || route == last;
    }
  }

  lemma DropSnoc(routes: seq<Route>, last: Route)
    requires forall route :: route in routes ==> route.rowid != last.rowid
    ensures WithoutRow(routes + [last], last.rowid) == routes
  {
    WithoutRowLast(routes, last, last.rowid);
    WithoutOtherRow(routes, last.rowid);
  }

  lemma {:induction false} WithoutRowsSnoc(front: seq<Route>, last: Route, rowids: seq<int>)
    requires last.rowid !in rowids
    ensures WithoutRows(front + [last], rowids) == WithoutRows(front, rowids) + [last]
  {
    if rowids != [] {
      var k := |rowids| - 1;
      WithoutRowsSnoc(front, last, rowids[..k]);
      assert rowids[k] in rowids;
      WithoutRowLast(WithoutRows(front, rowids[..k]), last, rowids[k]);
    }
  }

  function Archive(sessions: map<string, Session>, ids: set<string>): map<string, Session> {
    map id | id in sessions ::
      if id in ids && !sessions[id].archived && !sessions[id].ended
      then sessions[id].(archived := true, ended := true) else sessions[id]
  }

  function Entries(mirror: Mirror): map<string, Option<string>> {
    if mirror.Mapping? then mirror.entries else map[]
  }

  predicate Names(value: Option<string>, ids: set<string>) {
    value.Some? && value.value in ids
  }

  function Unmentioned(entries: map<string, Option<string>>, ids: set<string>): map<string, Option<string>> {
    map key | key in entries && !Names(entries[key], ids) :: entries[key]
  }

  predicate Closed(sessions: map<string, Session>, ids: set<string>) {
    forall id :: id in ids && id in sessions ==> sessions[id].archived && sessions[id].ended
  }

  predicate Unrouted(routes: seq<Route>, ids: set<string>) {
    forall route :: route in routes ==> Target(route) !in ids
  }

  predicate Unmirrored(mirror: Mirror, ids: set<string>) {
    forall key :: key in Entries(mirror) ==> !Names(Entries(mirror)[key], ids)
  }

  /** What the writeback check looks for: rotated sessions are closed, and nothing leads to them. */
  predicate Clean(sessions: map<string, Session>, routes: seq<Route>, mirror: Mirror, ids: set<string>) {
    Closed(sessions, ids) && Unrouted(routes, ids) && Unmirrored(mirror, ids)
  }

  /** The closed sessions are archived and ended and otherwise as before; the others have not changed. */
  ghost predicate SessionsRotated(before: map<string, Session>, after: map<string, Session>, ids: set<string>) {
    && after.Keys == before.Keys
    && forall id :: id in before ==> after[id] == if id in ids then before[id].(archived := true, ended := true) else before[id]
  }

  /** The route names one of the sessions; one that cannot be read counts as naming "". */
  predicate LeadsTo(route: Route, ids: set<string>) {
    match route.entry
    case Unreadable => "" in ids
    case Entry(session, _) => session in ids
  }

  /** Exactly the routes that lead to none of the sessions are left. */
  ghost predicate RoutesRotated(before: seq<Route>, after: seq<Route>, ids: set<string>) {
    forall route :: route in after <==> route in before && !LeadsTo(route, ids)
  }

  /** Exactly the mirror entries that name none of the sessions are left, in a file that was there before. */
  ghost predicate MirrorRotated(before: Mirror, after: Mirror, ids: set<string>) {
    match before
    case Absent => after.Absent?
    case NotAMapping => after == Mapping(map[])
    case Mapping(entries) =>
      && after.Mapping?
      && (forall key :: key in after.entries <==> key in entries && (entries[key].Some? ==> entries[key].value !in ids))
      && (forall key :: key in after.entries ==> after.entries[key] == entries[key])
  }

  lemma RotationExactly(sessions: map<string, Session>, routes: seq<Route>, read: Mirror, ids: set<string>)
    requires forall id :: id in ids ==> id in sessions && !sessions[id].archived && !sessions[id].ended
    ensures SessionsRotated(sessions, Archive(sessions, ids), ids) && RoutesRotated(routes, Elsewhere(routes, ids), ids)
    ensures MirrorRotated(read, if read.Absent? then Absent else Mapping(Unmentioned(Entries(read), ids)), ids)
  {
    ElsewhereIsPart(routes, ids);
  }

  datatype Report = Report(ok: bool, verified: bool, candidates: nat, routes: nat, mirrored: nat)

  class Gateway {
    var sessions: map<string, Session>
    var routes: seq<Route>
    var mirror: Mirror

    ghost predicate Valid()
      reads this
    {
      DistinctRows(routes)
    }

    constructor (sessions: map<string, Session>, routes: seq<Route>, mirror: Mirror)
      requires DistinctRows(routes)
      ensures Valid() && this.sessions == sessions && this.routes == routes && this.mirror == mirror
    {
      this.sessions, this.routes, this.mirror := sessions, routes, mirror;
    }

    method MatchingRoutes(ids: set<string>) returns (rowids: seq<int>)
      ensures rowids == Matching(routes, ids)
    {
      rowids := [];
      for i := 0 to |routes|
        invariant rowids == Matching(routes[..i], ids)
      {
        assert routes[..i + 1][..i] == routes[..i];
        if Target(routes[i]) in ids {
          rowids := rowids + [routes[i].rowid];
        }
      }
      assert routes[..|routes|] == routes;
    }

    /** The database transaction. */
    method Commit(ids: set<string>, rowids: seq<int>)
      modifies this`sessions, this`routes
      ensures sessions == Archive(old(sessions), ids)
      ensures routes == WithoutRows(old(routes), rowids)
    {
      var rest := ids;
      while rest != {}
        invariant rest <= ids
        invariant sessions == Archive(old(sessions), ids - rest) && routes == old(routes)
        decreases |rest|
      {
        var id :| id in rest;
        rest := rest - {id};
        if id in sessions && !sessions[id].archived && !sessions[id].ended {
          sessions := sessions[id := sessions[id].(archived := true, ended := true)];
        }
        assert sessions == Archive(old(sessions), ids - rest);
      }
      assert ids - rest == ids;
      for i := 0 to |rowids|
        invariant sessions == Archive(old(sessions), ids)
        invariant routes == WithoutRows(old(routes), rowids[..i])
      {
        assert rowids[..i + 1][..i] == rowids[..i];
        routes := WithoutRow(routes, rowids[i]);
      }
      assert rowids[..|rowids|] == rowids;
    }

    /** The mirror as read before the transaction, less the entries of the candidates, replaces the file. */
    method ReplaceMirror(read: Mirror, ids: set<string>)
      modifies this`mirror
      ensures mirror == if old(mirror).Absent? then Absent else Mapping(Unmentioned(Entries(read), ids))
    {
      if !mirror.Absent? {
        mirror := Mapping(Unmentioned(Entries(read), ids));
      }
    }

    /** The writeback check. */
    method Verify(ids: set<string>) returns (verified: bool)
      ensures verified == Clean(sessions, routes, mirror, ids)
    {
      var active := set id | id in ids && id in sessions && (!sessions[id].archived || !sessions[id].ended);
      var remaining := MatchingRoutes(ids);
      NoMatches(routes, ids);
      var entries := Entries(mirror);
      var mirrored := set key | key in entries && Names(entries[key], ids);
      assert Closed(sessions, ids) <==> active == {} by {
        if Closed(sessions, ids) {
          assert forall id :: id !in active;
        } else {
          var id :| id in ids && id in sessions && !(sessions[id].archived && sessions[id].ended);
          assert id in active;
        }
      }
      assert Unmirrored(mirror, ids) <==> mirrored == {} by {
        if Unmirrored(mirror, ids) {
          assert forall key :: key !in mirrored;
        } else {
          var key :| key in entries && Names(entries[key], ids);
          assert key in mirrored;
        }
      }
      verified := active == {} && remaining == [] && mirrored == {};
    }

    /**
      Without interference an applied rotation is verified: the candidates are closed, no route and no mirror entry
      leads to one, and everything else is as before. Otherwise nothing changes.
     */
    method Rotate(limits: Limits, apply: bool) returns (report: Report)
      requires Valid()
      modifies this
      ensures Valid()
      ensures var ids := Candidates(old(sessions), old(routes), limits).Keys;
        && report.candidates == |ids| && report.ok
        && report.routes == |Matching(old(routes), ids)|
        && report.mirrored == |set key | key in Entries(old(mirror)) && Names(Entries(old(mirror))[key], ids)|
        && (report.verified <==> !apply || ids != {})
        && (apply && ids != {} ==>
              && Clean(sessions, routes, mirror, ids)
              && sessions == Archive(old(sessions), ids)
              && routes == Elsewhere(old(routes), ids)
              && mirror.Absent? == old(mirror).Absent?
              && Entries(mirror) == Unmentioned(Entries(old(mirror)), ids)
              && SessionsRotated(old(sessions), sessions, ids) && RoutesRotated(old(routes), routes, ids)
              && MirrorRotated(old(mirror), mirror, ids))
        && (!apply || ids == {} ==> sessions == old(sessions) && routes == old(routes) && mirror == old(mirror))
    {
      var candidates := CandidateSessions(sessions, routes, limits);
      var ids := candidates.Keys;
      var rowids := MatchingRoutes(ids);
      var read := mirror;
      var mirrored := set key | key in Entries(read) && Names(Entries(read)[key], ids);
      report := Report(true, !apply, |ids|, |rowids|, |mirrored|);
      if !apply || ids == {} {
        return;
      }
      DeletingMatches(routes, ids);
      ElsewhereIsPart(routes, ids);
      ElsewhereDistinct(routes, ids);
      RotationExactly(sessions, routes, read, ids);
      Commit(ids, rowids);
      ReplaceMirror(read, ids);
      var verified := Verify(ids);
      report := report.(ok := verified, verified := verified);
    }
  }

  lemma {:induction false} ElsewhereDistinct(routes: seq<Route>, ids: set<string>)
    requires DistinctRows(routes)
    ensures DistinctRows(Elsewhere(routes, ids))
  {
    if routes != [] {
      var front, last := routes[..|routes| - 1], routes[|routes| - 1];
      ElsewhereDistinct(front, ids);
      ElsewhereIsPart(front, ids);
      var kept := Elsewhere(front, ids);
      forall i | 0 <= i < |kept| ensures kept[i].rowid != last.rowid {
        assert kept[i] in front;
      }
    }
  }

  // ----- Interference between the scan, the transaction and the check -----

  /** The routes whose row is not among those to delete, in order. */
  function Sparing(routes: seq<Route>, rowids: seq<int>): seq<Route> {
    if routes == [] then []
    else
      var n := |routes| - 1;
      Sparing(routes[..n], rowids) + if routes[n].rowid in rowids then [] else [routes[n]]
  }

  lemma {:induction false} SparingRow(routes: seq<Route>, rowids: seq<int>, rowid: int)
    ensures WithoutRow(Sparing(routes, rowids), rowid) == Sparing(routes, rowids + [rowid])
  {
    if routes != [] {
      var n := |routes| - 1;
      SparingRow(routes[..n], rowids, rowid);
      var kept := Sparing(routes[..n], rowids);
      if routes[n].rowid !in rowids {
        WithoutRowLast(kept, routes[n], rowid);
      } else {
        assert kept + [] == kept;
      }
      var rest := Sparing(routes[..n], rowids + [rowid]);
      assert rest + [] == rest;
    }
  }

  lemma {:induction false} SparingNone(routes: seq<Route>)
    ensures Sparing(routes, []) == routes
  {
    if routes != [] {
      SparingNone(routes[..|routes| - 1]);
    }
  }

  /** What a transaction deletes from any table: the routes in the given rows, and nothing else. */
  lemma {:induction false} DeletesRows(routes: seq<Route>, rowids: seq<int>)
    ensures WithoutRows(routes, rowids) == Sparing(routes, rowids)
  {
    if rowids == [] {
      SparingNone(routes);
    } else {
      var k := |rowids| - 1;
      DeletesRows(routes, rowids[..k]);
      SparingRow(routes, rowids[..k], rowids[k]);
      assert rowids == rowids[..k] + [rowids[k]];
    }
  }

  lemma {:induction false} SparingPart(routes: seq<Route>, rowids: seq<int>)
    ensures forall route :: route in Sparing(routes, rowids) <==> route in routes && route.rowid !in rowids
  {
    if routes != [] {
      var front, last := routes[..|routes| - 1], routes[|routes| - 1];
      SparingPart(front, rowids);
      assert routes == front + [last];
      assert forall route :: route in routes <==> route in front || route == last;
    }
  }

  /** The rows to delete are exactly those that lead to a candidate. */
  ghost predicate RowsTell(routes: seq<Route>, rowids: seq<int>, ids: set<string>) {
    forall route :: route in routes ==> (route.rowid in rowids <==> Target(route) in ids)
  }

  lemma {:induction false} SparingElsewhere(routes: seq<Route>, rowids: seq<int>, ids: set<string>)
    requires RowsTell(routes, rowids, ids)
    ensures Sparing(routes, rowids) == Elsewhere(routes, ids)
  {
    if routes != [] {
      var front, last := routes[..|routes| - 1], routes[|routes| - 1];
      assert last in routes && forall route :: route in front ==> route in routes;
      SparingElsewhere(front, rowids, ids);
    }
  }

  /**
    With interference between the scan and the transaction, which deletes the rows that the scan found, the routes that
    lead elsewhere are left, and only they, exactly if those rows still tell which routes lead to a candidate.
   */
  lemma DeletionExactly(scan: seq<Route>, later: seq<Route>, ids: set<string>)
    ensures WithoutRows(later, Matching(scan, ids)) == Elsewhere(later, ids) <==> RowsTell(later, Matching(scan, ids), ids)
  {
    var rowids := Matching(scan, ids);
    DeletesRows(later, rowids);
    SparingPart(later, rowids);
    ElsewhereIsPart(later, ids);
    if Sparing(later, rowids) == Elsewhere(later, ids) {
      forall route | route in later ensures route.rowid in rowids <==> Target(route) in ids {
        assert route in Sparing(later, rowids) <==> route in Elsewhere(later, ids);
      }
    } else if RowsTell(later, rowids, ids) {
      SparingElsewhere(later, rowids, ids);
    }
  }

  /** An archived session that is not ended, or the reverse, is not closed by the transaction. */
  ghost predicate Closable(sessions: map<string, Session>, ids: set<string>) {
    forall id :: id in ids && id in sessions ==> (sessions[id].archived <==> sessions[id].ended)
  }

  /**
    What the check then reports: success exactly if every candidate could be closed and every route that leads to one
    was in a row that the scan had found. It does not notice routes that were deleted though they lead elsewhere.
   */
  lemma CheckUnderInterference(scan: seq<Route>, sessions: map<string, Session>, later: seq<Route>, read: Mirror, ids: set<string>)
    ensures var mirror := Mapping(Unmentioned(Entries(read), ids));
            Clean(Archive(sessions, ids), WithoutRows(later, Matching(scan, ids)), mirror, ids) <==>
            Closable(sessions, ids) && forall route :: route in later && Target(route) in ids ==> route.rowid in Matching(scan, ids)
  {
    var rowids := Matching(scan, ids);
    DeletesRows(later, rowids);
    SparingPart(later, rowids);
    ArchiveCloses(sessions, ids);
  }

  lemma ArchiveCloses(sessions: map<string, Session>, ids: set<string>)
    ensures Closed(Archive(sessions, ids), ids) <==> Closable(sessions, ids)
  {
    var closed := Archive(sessions, ids);
    forall id | id in ids && id in sessions
      ensures closed[id].archived && closed[id].ended <==> (sessions[id].archived <==> sessions[id].ended)
    {
    }
  }

  /** A redirected route is such a case: its row was found, but it no longer leads to a candidate. */
  lemma RedirectedRowIsDeleted(ids: set<string>, route: Route, redirected: Route)
    requires Target(route) in ids && Target(redirected) !in ids && redirected.rowid == route.rowid
    ensures WithoutRows([redirected], Matching([route], ids)) == [] != Elsewhere([redirected], ids)
  {
    MatchingLast([], route, ids);
    WithoutRowsLast([redirected], [], route.rowid);
    WithoutRowLast([], redirected, route.rowid);
    ElsewhereLast([], redirected, ids);
    assert [] + [route] == [route] && [] + [redirected] == [redirected];
  }

  /** A rotation does not select what it rotated: the closed sessions are no candidates any more. */
  lemma RotatedOnce(sessions: map<string, Session>, routes: seq<Route>, later: seq<Route>, limits: Limits, limits': Limits)
    ensures var ids := Candidates(sessions, routes, limits).Keys;
            Candidates(Archive(sessions, ids), later, limits').Keys !! ids
  {
  }
}

/** Durable relationships in PostgreSQL: connections, the encounters they came from, blocks and
    reports. Each method is one transaction; constraint violations roll it back. */
module Relations {
  import opened Basics
  import opened Encounter

  /** A row of `connections`; user_low < user_high is a table constraint. */
  datatype Row = Row(low: UserId, high: UserId, encounter: MatchId, endedAt: Option<Millis>) {
    predicate Joins(pair: (UserId, UserId)) { (low, high) == pair }

    predicate Active() { endedAt.None? }

    function End(now: Millis): Row { if endedAt.Some? then this else this.(endedAt := Some(now)) }
  }

  datatype Result = Connected | Reported

  datatype Past = Past(low: UserId, high: UserId, outcome: Result)

  datatype Context = InEncounter(id: MatchId) | InConnection(connection: ConnectionId)

  datatype Report = Report(target: UserId, category: string)

  datatype Tables = Tables(
    connections: map<ConnectionId, Row>,
    encounters: map<MatchId, Past>,
    blocks: set<(UserId, UserId)>,
    reports: map<(UserId, Context), Report>)
  {
    predicate Blocked(pair: (UserId, UserId)) { pair in blocks || (pair.1, pair.0) in blocks }
  }

  // ---- integrity ----

  /** Row `c` respects the constraints, and stems from an encounter that ended in Connect. */
  ghost predicate RowOk(d: Tables, c: ConnectionId) {
    c in d.connections ==>
      var row := d.connections[c];
      row.low < row.high
      && row.encounter in d.encounters && d.encounters[row.encounter] == Past(row.low, row.high, Connected)
  }

  /** The partial unique index on active pairs, and the unique encounter column. */
  ghost predicate RowsApart(d: Tables, c: ConnectionId, e: ConnectionId) {
    c in d.connections && e in d.connections && c != e ==>
      && d.connections[c].encounter != d.connections[e].encounter
      && (d.connections[c].Active() && d.connections[e].Active() ==>
            (d.connections[c].low, d.connections[c].high) != (d.connections[e].low, d.connections[e].high))
  }

  ghost predicate Integrity(d: Tables) {
    (forall c :: RowOk(d, c)) && (forall c, e :: RowsApart(d, c, e))
  }

  // ---- transactions ----

  predicate IsActiveRow(d: Tables, pair: (UserId, UserId), c: ConnectionId) {
    c in d.connections && d.connections[c].Active() && d.connections[c].Joins(pair)
  }

  predicate HasActiveRow(d: Tables, pair: (UserId, UserId)) {
    exists c :: c in d.connections && IsActiveRow(d, pair, c)
  }

  predicate HasEncounterRow(d: Tables, m: MatchId) {
    exists c :: c in d.connections && d.connections[c].encounter == m
  }

  function NoteConnected(d: Tables, m: MatchId, pair: (UserId, UserId)): Tables {
    d.(encounters := d.encounters[m := if m in d.encounters then d.encounters[m].(outcome := Connected)
                                       else Past(pair.0, pair.1, Connected)])
  }

  /** PersistConnection: what the transaction leaves, and the id it returns, if it commits. */
  ghost predicate Persists(d: Tables, st: MatchState, newId: ConnectionId, e: Tables, id: Option<ConnectionId>) {
    var pair := Pair(st.a, st.b);
    if st.a == st.b then e == d && id == None
    else if HasActiveRow(d, pair) then
      id.Some? && IsActiveRow(d, pair, id.value) && e == NoteConnected(d, st.id, pair)
    else if HasEncounterRow(d, st.id) then e == d && id == None
    else
      id == Some(newId)
      && e == NoteConnected(d, st.id, pair).(connections := d.connections[newId := Row(pair.0, pair.1, st.id, None)])
  }

  function Remove(d: Tables, u: UserId, c: ConnectionId, now: Millis): (Tables, bool) {
    if c in d.connections && d.connections[c].Active() && (u == d.connections[c].low || u == d.connections[c].high) then
      (d.(connections := d.connections[c := d.connections[c].End(now)]), true)
    else (d, false)
  }

  function EndPair(rows: map<ConnectionId, Row>, pair: (UserId, UserId), now: Millis): map<ConnectionId, Row> {
    map c | c in rows :: if rows[c].Joins(pair) then rows[c].End(now) else rows[c]
  }

  function Block(d: Tables, u: UserId, target: UserId, now: Millis): (Tables, bool) {
    if u == target then (d, false)
    else (d.(blocks := d.blocks + {(u, target)}, connections := EndPair(d.connections, Pair(u, target), now)), true)
  }

  function Unblock(d: Tables, u: UserId, target: UserId): Tables {
    d.(blocks := d.blocks - {(u, target)})
  }

  function ReportMatch(d: Tables, reporter: UserId, target: UserId, st: MatchState, category: string): (Tables, bool) {
    if reporter == target || st.a == st.b then (d, false)
    else
      var pair := Pair(st.a, st.b);
      var key := (reporter, InEncounter(st.id));
      (d.(encounters := if st.id in d.encounters then d.encounters else d.encounters[st.id := Past(pair.0, pair.1, Reported)],
          reports := if key in d.reports then d.reports else d.reports[key := Report(target, category)]), true)
  }

  // ---- what the transactions keep ----

  /** A match is always persisted with the pair it was recorded with. */
  predicate SamePair(d: Tables, st: MatchState) {
    st.id in d.encounters ==> (d.encounters[st.id].low, d.encounters[st.id].high) == Pair(st.a, st.b)
  }

  lemma PersistKeeps(d: Tables, st: MatchState, newId: ConnectionId, e: Tables, id: Option<ConnectionId>)
    requires Integrity(d) && SamePair(d, st) && newId !in d.connections && Persists(d, st, newId, e, id)
    ensures Integrity(e)
    ensures id.Some? ==> IsActiveRow(e, Pair(st.a, st.b), id.value)
    ensures id.Some? ==> st.id in e.encounters && e.encounters[st.id].outcome == Connected
    ensures forall c | c in d.connections :: c in e.connections && e.connections[c] == d.connections[c]
  {
    forall c ensures RowOk(e, c) { assert RowOk(d, c); }
    forall c, x ensures RowsApart(e, c, x) { assert RowsApart(d, c, x); }
  }

  /** Persisting succeeds exactly for two people who either have an active connection already or have
      none from this match yet; it then adds at most the row it returns, and a failure adds nothing. */
  lemma PersistSucceedsExactly(d: Tables, st: MatchState, newId: ConnectionId, e: Tables, id: Option<ConnectionId>)
    requires Integrity(d) && newId !in d.connections && Persists(d, st, newId, e, id)
    ensures id.Some? <==>
      && st.a != st.b
      && ((exists c :: c in d.connections && d.connections[c].endedAt.None? && {d.connections[c].low, d.connections[c].high} == {st.a, st.b})
          || forall c | c in d.connections :: d.connections[c].encounter != st.id)
    ensures id.None? ==> e == d
    ensures id.Some? ==> e.connections.Keys <= d.connections.Keys + {id.value} && e.blocks == d.blocks && e.reports == d.reports
    ensures forall m | m in d.encounters && m != st.id :: m in e.encounters && e.encounters[m] == d.encounters[m]
  {
    forall c | c in d.connections
      ensures IsActiveRow(d, Pair(st.a, st.b), c) <==>
        d.connections[c].endedAt.None? && {d.connections[c].low, d.connections[c].high} == {st.a, st.b}
    {
      assert RowOk(d, c);
      SameTwo(d.connections[c].low, d.connections[c].high, st.a, st.b);
    }
    hide Integrity, IsActiveRow;
  }

  lemma SameTwo(low: UserId, high: UserId, a: UserId, b: UserId)
    requires low < high
    ensures (low, high) == Pair(a, b) <==> {low, high} == {a, b}
  {
    if {low, high} == {a, b} { assert low in {a, b} && high in {a, b} && a in {low, high} && b in {low, high}; }
  }

  /** Asked again for the same match while the row is active, PersistConnection returns the same
      row and changes nothing. */
  lemma PersistIsIdempotent(d: Tables, st: MatchState, f: ConnectionId, e: Tables, id: ConnectionId,
                            g: ConnectionId, e2: Tables, id2: Option<ConnectionId>)
    requires Integrity(d) && SamePair(d, st) && f !in d.connections
    requires Persists(d, st, f, e, Some(id)) && Persists(e, st, g, e2, id2)
    ensures id2 == Some(id) && e2 == e
  {
    PersistKeeps(d, st, f, e, Some(id));
    assert HasActiveRow(e, Pair(st.a, st.b));
    assert RowsApart(e, id, id2.value);
    assert e.encounters[st.id := e.encounters[st.id].(outcome := Connected)] == e.encounters;
  }

  lemma RemoveKeeps(d: Tables, u: UserId, c: ConnectionId, now: Millis)
    requires Integrity(d)
    ensures Integrity(Remove(d, u, c, now).0)
  {
    var e := Remove(d, u, c, now).0;
    forall x ensures RowOk(e, x) { assert RowOk(d, x); }
    forall x, y ensures RowsApart(e, x, y) { assert RowsApart(d, x, y); }
  }

  /** Blocking ends every connection of the pair and leaves all others alone; a time of ending
      that was already set is never moved. */
  lemma BlockKeeps(d: Tables, u: UserId, target: UserId, now: Millis)
    requires Integrity(d)
    ensures var e := Block(d, u, target, now).0;
      && Integrity(e)
      && (u != target ==> !HasActiveRow(e, Pair(u, target)) && e.Blocked((u, target)) && e.Blocked((target, u)))
      && e.connections.Keys == d.connections.Keys
      && (forall c | c in d.connections && d.connections[c].endedAt.Some? :: e.connections[c] == d.connections[c])
      && (forall c | c in d.connections && !d.connections[c].Joins(Pair(u, target)) :: e.connections[c] == d.connections[c])
  {
    var e := Block(d, u, target, now).0;
    forall x ensures RowOk(e, x) { assert RowOk(d, x); }
    forall x, y ensures RowsApart(e, x, y) { assert RowsApart(d, x, y); }
  }

  lemma ReportKeeps(d: Tables, reporter: UserId, target: UserId, st: MatchState, category: string)
    requires Integrity(d)
    ensures var e := ReportMatch(d, reporter, target, st, category).0;
      && Integrity(e)
      && (forall m | m in d.encounters :: m in e.encounters && e.encounters[m] == d.encounters[m])
      && ReportMatch(e, reporter, target, st, category).0 == e
  {
    var e := ReportMatch(d, reporter, target, st, category).0;
    forall x ensures RowOk(e, x) { assert RowOk(d, x); }
    forall x, y ensures RowsApart(e, x, y) { assert RowsApart(d, x, y); }
  }

  /** Reporting and connecting in either order leave the encounter connected: a report never
      downgrades it, and Connect upgrades a reported one. */
  lemma ConnectOutranksReport(d: Tables, st: MatchState, reporter: UserId, target: UserId, category: string,
                              f: ConnectionId, e1: Tables, id1: ConnectionId, e2: Tables, id2: ConnectionId)
    requires Integrity(d) && SamePair(d, st) && f !in d.connections
    requires Persists(ReportMatch(d, reporter, target, st, category).0, st, f, e1, Some(id1))
    requires Persists(d, st, f, e2, Some(id2))
    ensures st.id in e1.encounters && e1.encounters[st.id].outcome == Connected
    ensures ReportMatch(e2, reporter, target, st, category).0.encounters == e2.encounters
    ensures e2.encounters[st.id].outcome == Connected
  {
    ReportKeeps(d, reporter, target, st, category);
  }

  // ---- the same rows as messages and moments see them ----

  function Rows(d: Tables): map<ConnectionId, Conn> {
    map c | c in d.connections :: Conn(d.connections[c].low, d.connections[c].high, d.connections[c].endedAt.Some?)
  }

  function RowsOfPair(d: Tables, pair: (UserId, UserId)): set<ConnectionId> {
    set c | c in d.connections && d.connections[c].Joins(pair)
  }

  /** Removal ends one row. */
  lemma RemovalAsSeenElsewhere(d: Tables, u: UserId, c: ConnectionId, now: Millis)
    ensures Rows(Remove(d, u, c, now).0) == EndRows(Rows(d), if Remove(d, u, c, now).1 then {c} else {})
  {}

  /** A block that runs alone ends exactly the rows of its pair; taking it back ends and opens none. */
  lemma BlockAsSeenElsewhere(d: Tables, u: UserId, target: UserId, now: Millis)
    requires u != target
    ensures Rows(Block(d, u, target, now).0) == EndRows(Rows(d), RowsOfPair(d, Pair(u, target)))
    ensures Rows(Unblock(d, u, target)) == Rows(d)
  {}

  lemma PairAsSeenElsewhere(d: Tables, u: UserId, target: UserId, c: ConnectionId)
    requires Integrity(d) && u != target
    ensures c in RowsOfPair(d, Pair(u, target)) <==> c in Rows(d) && Rows(d)[c].Has(u) && Rows(d)[c].Has(target)
  {
    assert RowOk(d, c);
  }

  /** Persisting changes no row and adds at most one, which is open and joins exactly the pair. */
  lemma PersistAsSeenElsewhere(d: Tables, st: MatchState, newId: ConnectionId, e: Tables, id: Option<ConnectionId>)
    requires newId !in d.connections && Persists(d, st, newId, e, id)
    ensures Rows(e) == Rows(d) || (id == Some(newId) && Rows(e) == Rows(d)[newId := Conn(Pair(st.a, st.b).0, Pair(st.a, st.b).1, false)])
  {}

  // ---- the transactions as they run ----

  class Database {
    var connections: map<ConnectionId, Row>
    var encounters: map<MatchId, Past>
    var blocks: set<(UserId, UserId)>
    var reports: map<(UserId, Context), Report>

    ghost function View(): Tables
      reads this
    {
      Tables(connections, encounters, blocks, reports)
    }

    method PersistConnection(st: MatchState, newId: ConnectionId) returns (id: Option<ConnectionId>)
      modifies this
      ensures Persists(old(View()), st, newId, View(), id)
    {
      if st.a == st.b { return None; }
      var pair := Pair(st.a, st.b);
      var saved := encounters;
      if st.id in encounters {
        encounters := encounters[st.id := encounters[st.id].(outcome := Connected)];
      } else {
        encounters := encounters[st.id := Past(pair.0, pair.1, Connected)];
      }
      if c :| c in connections && connections[c].Active() && connections[c].Joins(pair) {
        assert IsActiveRow(old(View()), pair, c);
        return Some(c);
      }
      assert !HasActiveRow(old(View()), pair);
      if exists c :: c in connections && connections[c].encounter == st.id {
        encounters := saved;
        return None;
      }
      connections := connections[newId := Row(pair.0, pair.1, st.id, None)];
      return Some(newId);
    }

    method EligiblePair(a: UserId, b: UserId, active: set<UserId>) returns (eligible: bool)
      ensures eligible <==> a != b && a in active && b in active && !View().Blocked((a, b))
    {
      var rows := {a, b} * active;
      if rows == {a, b} { assert a in rows && b in rows; }
      return rows == {a, b} && a != b && (a, b) !in blocks && (b, a) !in blocks;
    }

    method RemoveConnection(u: UserId, c: ConnectionId, now: Millis) returns (removed: bool)
      modifies this
      ensures (View(), removed) == Remove(old(View()), u, c, now)
    {
      if c !in connections { return false; }
      var row := connections[c];
      if !row.Active() || (u != row.low && u != row.high) { return false; }
      connections := connections[c := row.(endedAt := Some(now))];
      return true;
    }

    method BlockUser(u: UserId, target: UserId, now: Millis) returns (ok: bool)
      modifies this
      ensures (View(), ok) == Block(old(View()), u, target, now)
    {
      if u == target { return false; }
      blocks := blocks + {(u, target)};
      var pair := Pair(u, target);
      var left := connections.Keys;
      while left != {}
        invariant left <= connections.Keys && blocks == old(blocks) + {(u, target)}
        invariant encounters == old(encounters) && reports == old(reports)
        invariant EndPair(connections, pair, now) == EndPair(old(connections), pair, now)
        invariant forall c | c in connections && c !in left :: connections[c].Joins(pair) ==> !connections[c].Active()
        decreases left
      {
        var c :| c in left;
        left := left - {c};
        if connections[c].Joins(pair) { connections := connections[c := connections[c].End(now)]; }
      }
      assert EndPair(connections, pair, now) == connections;
      return true;
    }

    method UnblockUser(u: UserId, target: UserId)
      modifies this
      ensures View() == Unblock(old(View()), u, target)
    {
      blocks := blocks - {(u, target)};
    }

    method ReportEncounter(reporter: UserId, target: UserId, st: MatchState, category: string) returns (ok: bool)
      modifies this
      ensures (View(), ok) == ReportMatch(old(View()), reporter, target, st, category)
    {
      if reporter == target || st.a == st.b { return false; }
      var pair := Pair(st.a, st.b);
      if st.id !in encounters { encounters := encounters[st.id := Past(pair.0, pair.1, Reported)]; }
      var key := (reporter, InEncounter(st.id));
      if key !in reports { reports := reports[key := Report(target, category)]; }
      return true;
    }
  }
}

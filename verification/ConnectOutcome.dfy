/** What mutual Connect comes to: an undisturbed second vote connects the pair, and only a removal by
    a member or a block within the pair ends what it has made. */
module ConnectOutcome {
  import opened Basics
  import opened Encounter
  import opened Relations
  import opened ConnectProtocol
  import A = EncounterActions
  import I = EncounterInvariants
  import N = EncounterNews

  /** The last vote of a pair, by a participant at the live socket while the match can be connected. */
  ghost predicate CompletesPair(x: System, u: UserId, socket: SocketId, m: MatchId, now: Millis) {
    && A.AtSocket(x.redis, u, socket) && A.Participates(x.redis, u, m)
    && var r := x.redis.matches[m];
    && A.PeerOf(r, u) in r.connectVotes && r.connection.None? && (r.phase.Extended? || now < r.expiresAt)
  }

  lemma VoteCompletes(x: System, h: nat, u: UserId, socket: SocketId, m: MatchId, now: Millis) returns (y: System)
    requires Inv(x) && h !in x.handlers && CompletesPair(x, u, socket, m, now)
    ensures Next(x, Vote(h, u, socket, m, now), y) && y.db == x.db && y.announced == x.announced
    ensures h in y.handlers && y.handlers[h] == Second(u, m) && y.redis.InMatch(u, m) && m in y.redis.matches
    ensures var r := y.redis.matches[m];
      (r.a, r.b) == (x.redis.matches[m].a, x.redis.matches[m].b) && r.a != r.b
      && r.a in r.connectVotes && r.b in r.connectVotes && r.connection.None?
  {
    RedisIsGood(x);
    I.RecordAt(x.redis, m);
    hide Inv, I.LapseInv, ConnectVote;
    A.ConnectVoteSays(x.redis, u, socket, m, now);
    var k := ConnectVote(x.redis, u, socket, m, now).0;
    y := x.(redis := k, votes := x.votes + {(m, u)}, handlers := x.handlers[h := Second(u, m)]);
  }

  /** The read back of a match that is still there. */
  lemma ReadsBack(x: System, h: nat, u: UserId, m: MatchId) returns (y: System, z: System)
    requires h in x.handlers && x.handlers[h] == Second(u, m) && x.redis.InMatch(u, m) && m in x.redis.matches
    ensures Next(x, LookUp(h), y) && Next(y, ReadBack(h), z)
    ensures z == x.(handlers := x.handlers[h := Reread(StateOf(x.redis, m))])
  {
    y := x.(handlers := x.handlers[h := Looked(true, u, m)]);
    z := y.(handlers := y.handlers[h := Reread(StateOf(y.redis, m))]);
    assert x.handlers[h := Looked(true, u, m)][h := Reread(StateOf(x.redis, m))] == x.handlers[h := Reread(StateOf(x.redis, m))];
  }

  /** The transaction finds or makes the active row of the pair, unless this match already has a row
      that has ended. */
  lemma Persisting(x: System, h: nat, newId: ConnectionId) returns (y: System, id: ConnectionId)
    requires h in x.handlers && x.handlers[h].Reread? && newId !in x.db.connections
    requires var st := x.handlers[h].state;
      st.a != st.b && (HasActiveRow(x.db, Pair(st.a, st.b)) || !HasEncounterRow(x.db, st.id))
    ensures Next(x, Persist(h, newId), y)
    ensures var st := x.handlers[h].state;
      && y == x.(db := y.db, handlers := x.handlers[h := Persisted(st.id, id)])
      && IsActiveRow(y.db, Pair(st.a, st.b), id)
      && st.id in y.db.encounters && y.db.encounters[st.id].outcome == Relations.Connected
  {
    var st := x.handlers[h].state;
    var pair := Pair(st.a, st.b);
    var noted := NoteConnected(x.db, st.id, pair);
    if c :| c in x.db.connections && IsActiveRow(x.db, pair, c) {
      id := c;
      y := x.(db := noted, handlers := x.handlers[h := Persisted(st.id, id)]);
    } else {
      id := newId;
      y := x.(db := noted.(connections := x.db.connections[newId := Row(pair.0, pair.1, st.id, None)]),
              handlers := x.handlers[h := Persisted(st.id, id)]);
    }
    assert Persists(x.db, st, newId, y.db, Some(id));
  }

  lemma Publishing(x: System, h: nat, m: MatchId, c: ConnectionId) returns (y: System)
    requires h in x.handlers && x.handlers[h] == Persisted(m, c) && m in x.redis.matches
    requires var r := x.redis.matches[m]; r.a in r.connectVotes && r.b in r.connectVotes && r.connection.None?
    ensures Next(x, Publish(h), y) && y.db == x.db && y.announced == x.announced[m := c]
    ensures var r := x.redis.matches[m];
      y.redis.published == x.redis.published + [Event(r.a, m, ConnectionCreated(c)), Event(r.b, m, ConnectionCreated(c))]
  {
    hide PublishConnection;
    A.PublishSays(x.redis, m, c);
    y := x.(redis := PublishConnection(x.redis, m, c).0, handlers := x.handlers - {h}, announced := x.announced[m := c]);
  }

  /** When the second of two votes is followed through undisturbed, the pair has an active
      connection, the encounter counts as connected, the match shows the connection, and both have
      been told its id; the only thing in the way would be a row of this very match that has ended. */
  lemma SecondVoteConnects(x: System, h: nat, u: UserId, socket: SocketId, m: MatchId, now: Millis, newId: ConnectionId)
    returns (xs: seq<System>, c: ConnectionId)
    requires Inv(x) && h !in x.handlers && newId !in x.db.connections && CompletesPair(x, u, socket, m, now)
    requires HasActiveRow(x.db, Pair(x.redis.matches[m].a, x.redis.matches[m].b)) || !HasEncounterRow(x.db, m)
    ensures |xs| == 6 && xs[0] == x && Next(xs[0], Vote(h, u, socket, m, now), xs[1]) && Next(xs[1], LookUp(h), xs[2])
    ensures Next(xs[2], ReadBack(h), xs[3]) && Next(xs[3], Persist(h, newId), xs[4]) && Next(xs[4], Publish(h), xs[5])
    ensures var (a, b) := (x.redis.matches[m].a, x.redis.matches[m].b);
      var end := xs[5];
      && IsActiveRow(end.db, Pair(a, b), c) && m in end.announced && end.announced[m] == c
      && m in end.db.encounters && end.db.encounters[m].outcome == Relations.Connected
      && Event(a, m, ConnectionCreated(c)) in end.redis.published && Event(b, m, ConnectionCreated(c)) in end.redis.published
  {
    hide Inv, Next, HasActiveRow, HasEncounterRow, IsActiveRow;
    var (a, b) := (x.redis.matches[m].a, x.redis.matches[m].b);
    var voted := VoteCompletes(x, h, u, socket, m, now);
    var looked, reread := ReadsBack(voted, h, u, m);
    var persisted, id := Persisting(reread, h, newId);
    var end := Publishing(persisted, h, m, id);
    xs, c := [x, voted, looked, reread, persisted, end], id;
    var n := |persisted.redis.published|;
    assert end.redis.published[n] == Event(a, m, ConnectionCreated(c));
    assert end.redis.published[n + 1] == Event(b, m, ConnectionCreated(c));
  }

  /** Whoever votes again when the connection is stored is told its id directly, and the vote changes
      nothing else. */
  lemma RepeatedVoteIsTold(x: System, h: nat, u: UserId, socket: SocketId, m: MatchId, now: Millis) returns (xs: seq<System>)
    requires Inv(x) && h !in x.handlers && A.AtSocket(x.redis, u, socket) && A.Participates(x.redis, u, m)
    requires var r := x.redis.matches[m]; r.connection.Some? && (r.phase.Extended? || now < r.expiresAt)
    ensures |xs| == 4 && xs[0] == x
    ensures Next(xs[0], Vote(h, u, socket, m, now), xs[1]) && Next(xs[1], LookUp(h), xs[2]) && Next(xs[2], ReadBack(h), xs[3])
    ensures xs[3] == x.(direct := x.direct + [Event(u, m, ConnectionCreated(x.redis.matches[m].connection.value))])
  {
    hide Inv, ConnectVote;
    A.ConnectVoteSays(x.redis, u, socket, m, now);
    var voted := x.(handlers := x.handlers[h := Repeat(u, m)]);
    var looked := voted.(handlers := voted.handlers[h := Looked(false, u, m)]);
    var told := x.(direct := x.direct + [Event(u, m, ConnectionCreated(x.redis.matches[m].connection.value))]);
    assert looked.handlers - {h} == x.handlers;
    xs := [x, voted, looked, told];
  }

  // ---- who ends a connection ----

  /** The action may end row `c`: a removal by one of its two members, or a block between them. */
  predicate MayEnd(x: System, a: Action, c: ConnectionId)
    requires c in x.db.connections
  {
    var row := x.db.connections[c];
    || (a.RemoveRow? && a.c == c && (a.u == row.low || a.u == row.high))
    || (a.BlockPair? && ((a.u == row.low && a.target == row.high) || (a.u == row.high && a.target == row.low)))
  }

  lemma RemovalEnds(d: Tables, u: UserId, e: ConnectionId, now: Millis, c: ConnectionId)
    requires c in d.connections
    ensures var f := Remove(d, u, e, now).0.connections;
      && c in f
      && f[c] == if e == c && d.connections[c].endedAt.None? && (u == d.connections[c].low || u == d.connections[c].high)
                 then d.connections[c].(endedAt := Some(now)) else d.connections[c]
  {}

  lemma BlockEnds(d: Tables, u: UserId, target: UserId, now: Millis, c: ConnectionId)
    requires Integrity(d) && c in d.connections
    ensures var f := Block(d, u, target, now).0.connections;
      var row := d.connections[c];
      && c in f
      && f[c] == if row.endedAt.None? && ((u == row.low && target == row.high) || (u == row.high && target == row.low))
                 then row.(endedAt := Some(now)) else row
  {
    assert RowOk(d, c);
  }

  lemma RowStep(x: System, a: Action, y: System, c: ConnectionId)
    requires Integrity(x.db) && Next(x, a, y) && c in x.db.connections
    ensures c in y.db.connections
    ensures y.db.connections[c] ==
      if x.db.connections[c].endedAt.None? && MayEnd(x, a, c) then x.db.connections[c].(endedAt := Some(a.now))
      else x.db.connections[c]
  {
    hide Apply, ConnectVote, PublishConnection;
    if a.RemoveRow? { RemovalEnds(x.db, a.u, a.c, a.now, c); }
    if a.BlockPair? { BlockEnds(x.db, a.u, a.target, a.now, c); }
    hide Remove, Block, Integrity;
    if a.Persist? { var id :| Persists(x.db, x.handlers[a.h].state, a.newId, y.db, id); }
  }

  /** In every execution an active connection stays active exactly as long as neither of its members
      removes it or blocks the other; nobody else's actions, no further vote and no report ends it. */
  lemma {:induction false} EndedExactlyByItsMembers(xs: seq<System>, acts: seq<Action>, n: nat, k: nat, c: ConnectionId)
    requires Execution(xs, acts) && n <= k < |xs| && c in xs[n].db.connections && xs[n].db.connections[c].endedAt.None?
    ensures c in xs[k].db.connections
    ensures xs[k].db.connections[c].endedAt.None? <==>
      forall i | n <= i < k :: c in xs[i].db.connections && !MayEnd(xs[i], acts[i], c)
    ensures xs[k].db.connections[c].(endedAt := None) == xs[n].db.connections[c]
    decreases k
  {
    hide Inv, Next, MayEnd;
    if n < k {
      EndedExactlyByItsMembers(xs, acts, n, k - 1, c);
      ExecutionKeeps(xs, acts, k - 1);
      ExecutionAt(xs, acts, k - 1);
      TablesAreGood(xs[k - 1]);
      RowStep(xs[k - 1], acts[k - 1], xs[k], c);
    }
  }

  /** And its time of ending is that of the first such action. */
  lemma {:induction false} EndedAtFirstEnding(xs: seq<System>, acts: seq<Action>, n: nat, k: nat, c: ConnectionId)
    returns (i: nat)
    requires Execution(xs, acts) && n <= k < |xs| && c in xs[n].db.connections && xs[n].db.connections[c].endedAt.None?
    requires c in xs[k].db.connections && xs[k].db.connections[c].endedAt.Some?
    ensures n <= i < k && c in xs[i].db.connections && MayEnd(xs[i], acts[i], c)
    ensures xs[k].db.connections[c].endedAt == Some(acts[i].now)
    ensures forall j | n <= j < i :: c in xs[j].db.connections && !MayEnd(xs[j], acts[j], c)
    decreases k
  {
    hide Inv, Next;
    EndedExactlyByItsMembers(xs, acts, n, k - 1, c);
    ExecutionKeeps(xs, acts, k - 1);
    ExecutionAt(xs, acts, k - 1);
    TablesAreGood(xs[k - 1]);
    RowStep(xs[k - 1], acts[k - 1], xs[k], c);
    if xs[k - 1].db.connections[c].endedAt.Some? {
      i := EndedAtFirstEnding(xs, acts, n, k - 1, c);
    } else {
      i := k - 1;
    }
  }

  lemma TablesAreGood(x: System)
    requires Inv(x)
    ensures Integrity(x.db)
  {}

  // ---- reports ----

  /** In every execution a report that has been filed stays as it was first filed. */
  lemma {:induction false} ReportsStand(xs: seq<System>, acts: seq<Action>, n: nat, k: nat, key: (UserId, Context))
    requires Execution(xs, acts) && n <= k < |xs| && key in xs[n].db.reports
    ensures key in xs[k].db.reports && xs[k].db.reports[key] == xs[n].db.reports[key]
    decreases k
  {
    hide Inv, Next;
    if n < k {
      ReportsStand(xs, acts, n, k - 1, key);
      ExecutionAt(xs, acts, k - 1);
      ReportStep(xs[k - 1], acts[k - 1], xs[k], key);
    }
  }

  /** A report of somebody else is on file afterwards, under its reporter and encounter, as the
      first one was filed; and no other action files any. */
  lemma ReportStep(x: System, a: Action, y: System, key: (UserId, Context))
    requires Next(x, a, y)
    ensures key in x.db.reports ==> key in y.db.reports && y.db.reports[key] == x.db.reports[key]
    ensures key in y.db.reports && key !in x.db.reports ==>
      a.Report? && key == (a.reporter, InEncounter(a.state.id)) && y.db.reports[key] == Relations.Report(a.target, a.category)
    ensures a.Report? && a.reporter != a.target && a.state.a != a.state.b && key == (a.reporter, InEncounter(a.state.id)) ==>
      key in y.db.reports && a.state.id in y.db.encounters
  {
    hide Apply, ConnectVote, PublishConnection;
    if a.Persist? { var id :| Persists(x.db, x.handlers[a.h].state, a.newId, y.db, id); }
  }
}

/** Mutual Connect across two stores: a Redis vote, a reread, a PostgreSQL upsert and a Redis
    publish, taken by any number of socket handlers in any interleaving, with lapsing keys. */
module ConnectProtocol {
  import opened Basics
  import opened Encounter
  import opened Relations
  import I = EncounterInvariants
  import A = EncounterActions
  import L = EncounterLog
  import N = EncounterNews

  /** Where one handler of match.connect stands. */
  datatype Stage =
    | Second(u: UserId, m: MatchId)                    // its vote completed the pair (reply 2)
    | Repeat(u: UserId, m: MatchId)                    // the outcome was already stored (reply 3)
    | Looked(second: bool, u: UserId, m: MatchId)      // GET of the user's mapping named this match
    | Reread(state: MatchState)                        // and HGETALL read the match back
    | Persisted(m: MatchId, connection: ConnectionId)  // the transaction committed

  /** `votes` and `announced` are history: accepted votes, and the id stored for each match.
      `direct` are the connection.created events written straight to a handler's own socket. */
  datatype System = System(
    redis: Keyspace, db: Tables, handlers: map<nat, Stage>,
    votes: set<(MatchId, UserId)>, announced: map<MatchId, ConnectionId>, direct: seq<Event>)

  datatype Action =
    | Redis(t: Step)
    | Vote(h: nat, u: UserId, socket: SocketId, m: MatchId, now: Millis)
    | LookUp(h: nat)
    | ReadBack(h: nat)
    | Persist(h: nat, newId: ConnectionId)
    | Publish(h: nat)
    | RemoveRow(u: UserId, c: ConnectionId, now: Millis)
    | BlockPair(u: UserId, target: UserId, now: Millis)
    | UnblockPair(u: UserId, target: UserId)
    | Report(reporter: UserId, target: UserId, state: MatchState, category: string)

  ghost predicate VoteStep(x: System, a: Action, y: System)
    requires a.Vote?
  {
    var (k, reply) := ConnectVote(x.redis, a.u, a.socket, a.m, a.now);
    && a.h !in x.handlers
    && y == x.(redis := k,
               votes := if reply == 1 || reply == 2 then x.votes + {(a.m, a.u)} else x.votes,
               handlers := if reply == 2 then x.handlers[a.h := Second(a.u, a.m)]
                           else if reply == 3 then x.handlers[a.h := Repeat(a.u, a.m)] else x.handlers)
  }

  /** The first command of CurrentMatch, and the comparison with the match of the vote. */
  ghost predicate LookStep(x: System, a: Action, y: System)
    requires a.LookUp?
  {
    && a.h in x.handlers && (x.handlers[a.h].Second? || x.handlers[a.h].Repeat?)
    && var at := x.handlers[a.h];
    y == x.(handlers := if x.redis.InMatch(at.u, at.m) then x.handlers[a.h := Looked(at.Second?, at.u, at.m)]
                        else x.handlers - {a.h})
  }

  /** The second command; the match may have changed or gone since. */
  ghost predicate ReadStep(x: System, a: Action, y: System)
    requires a.ReadBack?
  {
    && a.h in x.handlers && x.handlers[a.h].Looked?
    && var at := x.handlers[a.h];
    var done := x.(handlers := x.handlers - {a.h});
    if at.m !in x.redis.matches then y == done
    else if at.second then y == x.(handlers := x.handlers[a.h := Reread(StateOf(x.redis, at.m))])
    else if x.redis.matches[at.m].connection.None? then y == done
    else y == done.(direct := x.direct + [Event(at.u, at.m, ConnectionCreated(x.redis.matches[at.m].connection.value))])
  }

  ghost predicate PersistStep(x: System, a: Action, y: System)
    requires a.Persist?
  {
    && a.h in x.handlers && x.handlers[a.h].Reread? && a.newId !in x.db.connections
    && exists id ::
         && Persists(x.db, x.handlers[a.h].state, a.newId, y.db, id)
         && y == x.(db := y.db, handlers := if id.None? then x.handlers - {a.h}
                                            else x.handlers[a.h := Persisted(x.handlers[a.h].state.id, id.value)])
  }

  ghost predicate PublishStep(x: System, a: Action, y: System)
    requires a.Publish?
  {
    && a.h in x.handlers && x.handlers[a.h].Persisted?
    && var at := x.handlers[a.h];
    var (k, reply) := PublishConnection(x.redis, at.m, at.connection);
    y == x.(redis := k, handlers := x.handlers - {a.h},
            announced := if reply == 1 then x.announced[at.m := at.connection] else x.announced)
  }

  /** One step of the whole system. Any script but the two that belong to match.connect may run
      at any time; a report carries a match state that was read back earlier. */
  ghost predicate Next(x: System, a: Action, y: System) {
    match a
    case Redis(t) => Legal(x.redis, t) && !t.DoConnectVote? && !t.DoPublishConnection? && y == x.(redis := Apply(x.redis, t).0)
    case Vote(_, _, _, _, _) => VoteStep(x, a, y)
    case LookUp(_) => LookStep(x, a, y)
    case ReadBack(_) => ReadStep(x, a, y)
    case Persist(_, _) => PersistStep(x, a, y)
    case Publish(_) => PublishStep(x, a, y)
    case RemoveRow(u, c, now) => y == x.(db := Remove(x.db, u, c, now).0)
    case BlockPair(u, target, now) => y == x.(db := Block(x.db, u, target, now).0)
    case UnblockPair(u, target) => y == x.(db := Unblock(x.db, u, target))
    case Report(r, target, st, category) => KnownState(x, st) && y == x.(db := ReportMatch(x.db, r, target, st, category).0)
  }

  const START := System(EMPTY, Tables(map[], map[], {}, map[]), map[], {}, map[], [])

  // ---- invariant ----

  ghost predicate KnownState(x: System, st: MatchState) {
    st.id in x.redis.issued && (st.a, st.b) == x.redis.issued[st.id]
  }

  ghost predicate BothVoted(x: System, m: MatchId) {
    m in x.redis.issued && (m, x.redis.issued[m].0) in x.votes && (m, x.redis.issued[m].1) in x.votes
  }

  function PairOf(x: System, m: MatchId): (UserId, UserId)
    requires m in x.redis.issued
  {
    Pair(x.redis.issued[m].0, x.redis.issued[m].1)
  }

  ghost predicate IsRowOf(x: System, m: MatchId, c: ConnectionId) {
    m in x.redis.issued && c in x.db.connections && x.db.connections[c].Joins(PairOf(x, m))
  }

  ghost predicate HandlerOk(x: System, h: nat) {
    h in x.handlers ==>
      match x.handlers[h]
      case Second(u, m) => BothVoted(x, m)
      case Repeat(u, m) => true
      case Looked(second, u, m) => second ==> BothVoted(x, m)
      case Reread(st) => BothVoted(x, st.id) && KnownState(x, st)
      case Persisted(m, c) => BothVoted(x, m) && IsRowOf(x, m, c)
  }

  ghost predicate RecordOk(x: System, m: MatchId) {
    && (m in x.redis.matches ==> forall u | u in x.redis.matches[m].connectVotes :: (m, u) in x.votes)
    && (m in x.redis.matches ==>
          x.redis.matches[m].connection == if m in x.announced then Some(x.announced[m]) else None)
    && (m in x.announced ==> BothVoted(x, m) && IsRowOf(x, m, x.announced[m]))
    && (m in x.db.encounters ==> m in x.redis.issued && (x.db.encounters[m].low, x.db.encounters[m].high) == PairOf(x, m)
                                 && (x.db.encounters[m].outcome == Connected ==> BothVoted(x, m)))
  }

  /** Every connection.created anybody sees carries the id stored for its match. */
  ghost predicate EventOk(x: System, e: Event) {
    e.body.ConnectionCreated? ==> e.id in x.announced && x.announced[e.id] == e.body.connection
  }

  ghost predicate Inv(x: System) {
    && I.LapseInv(x.redis) && L.LogInv(x.redis) && Integrity(x.db)
    && (forall h :: HandlerOk(x, h))
    && (forall m :: RecordOk(x, m))
    && (forall e | e in x.redis.published :: EventOk(x, e))
    && (forall e | e in x.direct :: EventOk(x, e))
  }

  // ---- preservation ----

  /** Histories only grow. */
  ghost predicate Grows(x: System, y: System) {
    && (forall m | m in x.redis.issued :: m in y.redis.issued && y.redis.issued[m] == x.redis.issued[m])
    && x.votes <= y.votes
    && (forall m | m in x.announced :: m in y.announced && y.announced[m] == x.announced[m])
    && (forall c | c in x.db.connections :: c in y.db.connections
          && (y.db.connections[c].low, y.db.connections[c].high) == (x.db.connections[c].low, x.db.connections[c].high))
  }

  lemma RedisKeeps(x: System, t: Step, y: System)
    requires Inv(x) && Next(x, Redis(t), y)
    ensures Inv(y)
  {
    hide Apply, I.LapseInv, L.LogInv;
    I.StepKeeps(x.redis, t);
    L.StepKeepsLog(x.redis, t);
    forall m ensures m in x.redis.issued ==> m in y.redis.issued && y.redis.issued[m] == x.redis.issued[m] {
      var _ := L.StepSpeaks(x.redis, t, m);
    }
    forall m ensures RecordOk(y, m) { assert RecordOk(x, m); RecordAfter(x, t, y, m); }
    forall h ensures HandlerOk(y, h) { assert HandlerOk(x, h); }
    forall e | e in y.redis.published ensures EventOk(y, e) {
      if e !in x.redis.published {
        var tail := L.StepSpeaks(x.redis, t, e.id);
        assert e in tail;
        VotesAfter(x.redis, t, e.id);
      }
    }
  }

  lemma RecordAfter(x: System, t: Step, y: System, m: MatchId)
    requires Legal(x.redis, t) && !t.DoConnectVote? && !t.DoPublishConnection? && y == x.(redis := Apply(x.redis, t).0)
    requires RecordOk(x, m) && Grows(x, y)
    ensures RecordOk(y, m)
  {
    VotesAfter(x.redis, t, m);
  }

  ghost predicate SameConnectFields(s: Keyspace, e: Keyspace, m: MatchId) {
    m in e.matches ==>
      m in s.matches && e.matches[m].connectVotes == s.matches[m].connectVotes && e.matches[m].connection == s.matches[m].connection
  }

  /** Connect votes and the stored connection belong to the two scripts of match.connect. */
  ghost predicate ConnectFieldsKept(s: Keyspace, t: Step, m: MatchId) {
    var e := Apply(s, t).0;
    || SameConnectFields(s, e, m)
    || (m in e.matches && t.DoClaim? && t.m == m && e.matches[m].connectVotes == {} && e.matches[m].connection == None)
  }

  lemma ReturnKeepsConnectFields(s: Keyspace, u: UserId, socket: SocketId, m: MatchId, now: Millis, n: MatchId)
    ensures SameConnectFields(s, Reconnect(s, u, socket, m, now).0, n)
  {}

  lemma DisconnectKeepsConnectFields(s: Keyspace, u: UserId, socket: SocketId, now: Millis, n: MatchId)
    ensures SameConnectFields(s, Disconnect(s, u, socket, now).0, n)
  {}

  lemma ExtendKeepsConnectFields(s: Keyspace, u: UserId, socket: SocketId, m: MatchId, now: Millis, n: MatchId)
    ensures SameConnectFields(s, Extend(s, u, socket, m, now).0, n)
  {}

  lemma FinishKeepsConnectFields(s: Keyspace, m: MatchId, n: MatchId)
    requires m in s.matches
    ensures forall reason :: SameConnectFields(s, Finish(s, m, reason), n)
  {}

  predicate LeavesRecords(t: Step) {
    t.DoConnect? || t.DoHeartbeat? || t.DoEnqueue? || t.DoLeaveQueue? || t.DoCleanup? || t.DoRelay?
    || t.LapsePresence? || t.LapseRecent? || t.LapseMapping?
  }

  lemma RecordsLeft(s: Keyspace, t: Step)
    requires LeavesRecords(t)
    ensures Apply(s, t).0.matches == s.matches
  {
    hide Claim, Reconnect, Extend, Disconnect, ConnectVote, PublishConnection, End, EndForUser, Expire, GraceExpire, Finish;
  }

  lemma VotesAfter(s: Keyspace, t: Step, m: MatchId)
    requires !t.DoConnectVote? && !t.DoPublishConnection?
    ensures ConnectFieldsKept(s, t, m)
  {
    hide Reconnect, Extend, Disconnect, ConnectVote, PublishConnection, Finish, Connect, Heartbeat, Enqueue, LeaveQueue,
         CleanupQueued, Relay;
    if LeavesRecords(t) { RecordsLeft(s, t); }
    if Ends(t) && t.m in s.matches { FinishKeepsConnectFields(s, t.m, m); }
    if t.DoReconnect? { ReturnKeepsConnectFields(s, t.u, t.socket, t.m, t.now, m); }
    if t.DoDisconnect? { DisconnectKeepsConnectFields(s, t.u, t.socket, t.now, m); }
    if t.DoExtend? { ExtendKeepsConnectFields(s, t.u, t.socket, t.m, t.now, m); }
  }

  lemma VoteRecord(x: System, a: Action, y: System, m: MatchId)
    requires Inv(x) && a.Vote? && Next(x, a, y) && Grows(x, y)
    ensures RecordOk(y, m)
  {
    hide I.LapseInv, L.LogInv, Integrity, HandlerOk;
    assert RecordOk(x, m);
  }

  lemma VoteRedis(x: System, a: Action, y: System)
    requires Inv(x) && a.Vote? && Next(x, a, y)
    ensures I.LapseInv(y.redis) && L.LogInv(y.redis) && Grows(x, y)
    ensures y.redis.published == x.redis.published && y.direct == x.direct && y.db == x.db
  {
    hide I.LapseInv, L.LogInv, Integrity, RecordOk, HandlerOk, EventOk, Reconnect, Extend, Disconnect, Expire, GraceExpire, Claim,
         PublishConnection, Relay, End, EndForUser, Connect, Enqueue, LeaveQueue, CleanupQueued;
    var t := DoConnectVote(a.u, a.socket, a.m, a.now);
    I.StepKeeps(x.redis, t);
    L.StepKeepsLog(x.redis, t);
  }

  /** A vote answered with 2 completes the pair. */
  lemma SecondVoteMeansBoth(x: System, a: Action, y: System)
    requires Inv(x) && a.Vote? && Next(x, a, y) && ConnectVote(x.redis, a.u, a.socket, a.m, a.now).1 == 2
    ensures BothVoted(y, a.m)
  {
    I.RecordAt(x.redis, a.m);
    assert RecordOk(x, a.m);
    hide I.LapseInv, L.LogInv, Integrity, HandlerOk, EventOk, IsRowOf;
  }

  lemma VoteHandler(x: System, a: Action, y: System, h: nat)
    requires Inv(x) && a.Vote? && Next(x, a, y) && Grows(x, y)
    ensures HandlerOk(y, h)
  {
    if ConnectVote(x.redis, a.u, a.socket, a.m, a.now).1 == 2 { SecondVoteMeansBoth(x, a, y); }
    assert HandlerOk(x, h);
    hide I.LapseInv, L.LogInv, Integrity, RecordOk, EventOk, ConnectVote;
  }

  lemma EventsKept(x: System, y: System)
    requires Grows(x, y) && forall e | e in x.redis.published + x.direct :: EventOk(x, e)
    ensures forall e | e in x.redis.published + x.direct :: EventOk(y, e)
  {}

  lemma VoteKeeps(x: System, a: Action, y: System)
    requires Inv(x) && a.Vote? && Next(x, a, y)
    ensures Inv(y)
  {
    hide I.LapseInv, L.LogInv, Integrity, RecordOk, HandlerOk, EventOk, Grows, Next;
    VoteRedis(x, a, y);
    EventsKept(x, y);
    forall m ensures RecordOk(y, m) { VoteRecord(x, a, y, m); }
    forall h ensures HandlerOk(y, h) { VoteHandler(x, a, y, h); }
  }

  lemma ReadRecord(x: System, a: Action, y: System, m: MatchId)
    requires Inv(x) && a.ReadBack? && Next(x, a, y)
    ensures RecordOk(y, m)
  {
    hide I.LapseInv, L.LogInv, Integrity, HandlerOk, EventOk;
    assert RecordOk(x, m);
  }

  lemma ReadHandler(x: System, a: Action, y: System, h: nat)
    requires Inv(x) && a.ReadBack? && Next(x, a, y)
    ensures HandlerOk(y, h)
  {
    if x.handlers[a.h].m in x.redis.matches { I.RecordAt(x.redis, x.handlers[a.h].m); }
    hide I.LapseInv, L.LogInv, Integrity, RecordOk, EventOk;
    assert HandlerOk(x, h) && HandlerOk(x, a.h);
  }

  lemma ReadEvent(x: System, a: Action, y: System, e: Event)
    requires Inv(x) && a.ReadBack? && Next(x, a, y) && e in y.redis.published + y.direct
    ensures EventOk(y, e)
  {
    hide I.LapseInv, L.LogInv, Integrity, HandlerOk;
    if e in x.redis.published + x.direct { assert EventOk(x, e); } else { assert RecordOk(x, e.id); }
  }

  lemma LookKeeps(x: System, a: Action, y: System)
    requires Inv(x) && a.LookUp? && Next(x, a, y)
    ensures Inv(y)
  {
    hide I.LapseInv, L.LogInv, Integrity;
    forall m ensures RecordOk(y, m) { assert RecordOk(x, m); }
    forall h ensures HandlerOk(y, h) { assert HandlerOk(x, h) && HandlerOk(x, a.h); }
  }

  lemma ReadKeeps(x: System, a: Action, y: System)
    requires Inv(x) && a.ReadBack? && Next(x, a, y)
    ensures Inv(y)
  {
    hide I.LapseInv, L.LogInv, Integrity, RecordOk, HandlerOk, EventOk;
    forall e | e in y.redis.published + y.direct ensures EventOk(y, e) { ReadEvent(x, a, y, e); }
    forall m ensures RecordOk(y, m) { ReadRecord(x, a, y, m); }
    forall h ensures HandlerOk(y, h) { ReadHandler(x, a, y, h); }
  }

  lemma PersistTables(x: System, a: Action, y: System)
    requires Inv(x) && a.Persist? && Next(x, a, y)
    ensures Grows(x, y) && Integrity(y.db) && y.redis == x.redis && y.direct == x.direct
  {
    hide I.LapseInv, L.LogInv, EventOk;
    var st := x.handlers[a.h].state;
    var id :| Persists(x.db, st, a.newId, y.db, id)
      && y == x.(db := y.db, handlers := if id.None? then x.handlers - {a.h} else x.handlers[a.h := Persisted(st.id, id.value)]);
    assert HandlerOk(x, a.h) && RecordOk(x, st.id);
    PersistKeeps(x.db, st, a.newId, y.db, id);
    hide Persists, Integrity, HandlerOk, RecordOk;
  }

  lemma PersistRecord(x: System, a: Action, y: System, m: MatchId)
    requires Inv(x) && a.Persist? && Next(x, a, y) && Grows(x, y)
    ensures RecordOk(y, m)
  {
    hide I.LapseInv, L.LogInv, Integrity, EventOk, IsActiveRow, HasActiveRow, HasEncounterRow, IsRowOf;
    assert HandlerOk(x, a.h) && RecordOk(x, x.handlers[a.h].state.id) && RecordOk(x, m);
    RowsStayRows(x, y);
  }

  lemma RowsStayRows(x: System, y: System)
    requires Grows(x, y)
    ensures forall m, c :: IsRowOf(x, m, c) ==> IsRowOf(y, m, c)
  {}

  lemma PersistHandler(x: System, a: Action, y: System, h: nat)
    requires Inv(x) && a.Persist? && Next(x, a, y) && Grows(x, y)
    ensures HandlerOk(y, h)
  {
    hide I.LapseInv, L.LogInv, EventOk;
    var st := x.handlers[a.h].state;
    var id :| Persists(x.db, st, a.newId, y.db, id)
      && y == x.(db := y.db, handlers := if id.None? then x.handlers - {a.h} else x.handlers[a.h := Persisted(st.id, id.value)]);
    assert HandlerOk(x, a.h) && RecordOk(x, st.id) && HandlerOk(x, h);
    PersistKeeps(x.db, st, a.newId, y.db, id);
    hide Integrity, Persists, RecordOk;
  }

  lemma PersistKeepsAll(x: System, a: Action, y: System)
    requires Inv(x) && a.Persist? && Next(x, a, y)
    ensures Inv(y)
  {
    hide I.LapseInv, L.LogInv, Integrity, RecordOk, HandlerOk, EventOk, Grows, Next;
    PersistTables(x, a, y);
    EventsKept(x, y);
    forall m ensures RecordOk(y, m) { PersistRecord(x, a, y, m); }
    forall h ensures HandlerOk(y, h) { PersistHandler(x, a, y, h); }
  }

  lemma PublishRecord(x: System, a: Action, y: System, m: MatchId)
    requires Inv(x) && a.Publish? && Next(x, a, y) && Grows(x, y)
    ensures RecordOk(y, m)
  {
    hide I.LapseInv, L.LogInv, Integrity;
    assert HandlerOk(x, a.h) && RecordOk(x, m);
  }

  lemma PublishRedis(x: System, a: Action, y: System)
    requires Inv(x) && a.Publish? && Next(x, a, y)
    ensures I.LapseInv(y.redis) && L.LogInv(y.redis) && Grows(x, y)
    ensures y.direct == x.direct && y.db == x.db
  {
    var at := x.handlers[a.h];
    var t := DoPublishConnection(at.m, at.connection);
    assert HandlerOk(x, a.h) && RecordOk(x, at.m);
    hide I.LapseInv, L.LogInv, Integrity, HandlerOk, EventOk, Reconnect, Extend, Disconnect, Expire, GraceExpire, Claim,
         ConnectVote, Relay, End, EndForUser, Connect, Enqueue, LeaveQueue, CleanupQueued;
    I.StepKeeps(x.redis, t);
    L.StepKeepsLog(x.redis, t);
  }

  lemma PublishEvent(x: System, a: Action, y: System, e: Event)
    requires Inv(x) && a.Publish? && Next(x, a, y) && Grows(x, y) && e in y.redis.published
    ensures EventOk(y, e)
  {
    hide I.LapseInv, L.LogInv, Integrity, HandlerOk, RecordOk;
    if e in x.redis.published { assert EventOk(x, e); }
  }

  lemma PublishHandler(x: System, a: Action, y: System, h: nat)
    requires Inv(x) && a.Publish? && Next(x, a, y) && Grows(x, y)
    ensures HandlerOk(y, h)
  {
    hide I.LapseInv, L.LogInv, Integrity, RecordOk, EventOk;
    assert HandlerOk(x, h);
  }

  lemma PublishKeeps(x: System, a: Action, y: System)
    requires Inv(x) && a.Publish? && Next(x, a, y)
    ensures Inv(y)
  {
    hide I.LapseInv, L.LogInv, Integrity, RecordOk, HandlerOk, EventOk, Grows, Next;
    PublishRedis(x, a, y);
    EventsKept(x, y);
    forall e | e in y.redis.published ensures EventOk(y, e) { PublishEvent(x, a, y, e); }
    forall m ensures RecordOk(y, m) { PublishRecord(x, a, y, m); }
    forall h ensures HandlerOk(y, h) { PublishHandler(x, a, y, h); }
  }

  /** Rows may end and blocks may come and go; encounters may be added as reported. */
  lemma TablesKeep(x: System, y: System)
    requires Inv(x) && y == x.(db := y.db) && Integrity(y.db) && Grows(x, y)
    requires forall m | m in y.db.encounters ::
      || (m in x.db.encounters && y.db.encounters[m] == x.db.encounters[m])
      || (m in x.redis.issued && y.db.encounters[m] == Past(PairOf(x, m).0, PairOf(x, m).1, Reported))
    ensures Inv(y)
  {
    hide I.LapseInv, L.LogInv, Integrity;
    forall m ensures RecordOk(y, m) { assert RecordOk(x, m); }
    forall h ensures HandlerOk(y, h) { assert HandlerOk(x, h); }
  }

  lemma EndingsGrow(x: System, a: Action, y: System)
    requires Inv(x) && (a.RemoveRow? || a.BlockPair?) && Next(x, a, y)
    ensures Grows(x, y) && Integrity(y.db) && y == x.(db := y.db) && y.db.encounters == x.db.encounters
  {
    hide I.LapseInv, L.LogInv, RecordOk, HandlerOk, EventOk, Integrity;
    match a
    case RemoveRow(u, c, now) => RemoveKeeps(x.db, u, c, now);
    case BlockPair(u, target, now) => BlockKeeps(x.db, u, target, now);
  }

  lemma UnblockKeeps(x: System, y: System, u: UserId, target: UserId)
    requires Inv(x) && y == x.(db := Unblock(x.db, u, target))
    ensures Grows(x, y) && Integrity(y.db) && y.db.encounters == x.db.encounters
  {
    hide I.LapseInv, L.LogInv, RecordOk, HandlerOk, EventOk;
    forall c ensures RowOk(y.db, c) { assert RowOk(x.db, c); }
    forall c, e ensures RowsApart(y.db, c, e) { assert RowsApart(x.db, c, e); }
  }

  lemma ReportGrows(x: System, a: Action, y: System)
    requires Inv(x) && a.Report? && Next(x, a, y)
    ensures Grows(x, y) && Integrity(y.db) && y == x.(db := y.db)
    ensures forall m | m in y.db.encounters ::
      || (m in x.db.encounters && y.db.encounters[m] == x.db.encounters[m])
      || (m in x.redis.issued && y.db.encounters[m] == Past(PairOf(x, m).0, PairOf(x, m).1, Reported))
  {
    hide I.LapseInv, L.LogInv, RecordOk, HandlerOk, EventOk, Integrity;
    ReportKeeps(x.db, a.reporter, a.target, a.state, a.category);
  }

  lemma TableActionsKeep(x: System, a: Action, y: System)
    requires Inv(x) && (a.RemoveRow? || a.BlockPair? || a.UnblockPair? || a.Report?) && Next(x, a, y)
    ensures Inv(y)
  {
    hide Inv, Grows, Integrity, Remove, Block, Unblock, ReportMatch;
    if a.Report? {
      ReportGrows(x, a, y);
    } else if a.UnblockPair? {
      UnblockKeeps(x, y, a.u, a.target);
    } else {
      EndingsGrow(x, a, y);
    }
    TablesKeep(x, y);
  }

  lemma NextKeeps(x: System, a: Action, y: System)
    requires Inv(x) && Next(x, a, y)
    ensures Inv(y)
  {
    hide Inv, Next;
    match a
    case Redis(t) => RedisKeeps(x, t, y);
    case Vote(_, _, _, _, _) => VoteKeeps(x, a, y);
    case LookUp(_) => LookKeeps(x, a, y);
    case ReadBack(_) => ReadKeeps(x, a, y);
    case Persist(_, _) => PersistKeepsAll(x, a, y);
    case Publish(_) => PublishKeeps(x, a, y);
    case _ => TableActionsKeep(x, a, y);
  }

  /** An execution: a first state, and each next one by some action. */
  ghost predicate Execution(xs: seq<System>, acts: seq<Action>) {
    && |xs| == |acts| + 1 && xs[0] == START
    && forall i | 0 <= i < |acts| :: Next(xs[i], acts[i], xs[i + 1])
  }

  lemma StartIsGood()
    ensures Inv(START)
  {
    L.EmptyLog();
  }

  lemma {:induction false} ExecutionKeeps(xs: seq<System>, acts: seq<Action>, n: nat)
    requires Execution(xs, acts) && n < |xs|
    ensures Inv(xs[n])
  {
    hide Inv, Next;
    if n == 0 {
      StartIsGood();
    } else {
      ExecutionKeeps(xs, acts, n - 1);
      assert Next(xs[n - 1], acts[n - 1], xs[n]);
      NextKeeps(xs[n - 1], acts[n - 1], xs[n]);
    }
  }

  // ---- everybody is told ----

  /** An announced connection has been told to both members of the match. */
  ghost predicate AnnouncementTold(x: System, m: MatchId) {
    m in x.announced ==> N.BothTold(x.redis, m, ConnectionCreated(x.announced[m]))
  }

  /** A publication that the votes allow announces the connection, and both are told. */
  lemma PublishTells(x: System, a: Action, y: System)
    requires Inv(x) && a.Publish? && Next(x, a, y)
    ensures var at := x.handlers[a.h];
      && N.Prefix(x.redis.published, y.redis.published)
      && (at.m in x.redis.matches && x.redis.matches[at.m].connection.None?
          && x.redis.matches[at.m].a in x.redis.matches[at.m].connectVotes && x.redis.matches[at.m].b in x.redis.matches[at.m].connectVotes ==>
            y.announced == x.announced[at.m := at.connection])
      && (y.announced == x.announced
          || (y.announced == x.announced[at.m := at.connection] && N.BothTold(y.redis, at.m, ConnectionCreated(at.connection))))
  {
    var at := x.handlers[a.h];
    hide Inv, PublishConnection, N.BothTold;
    A.PublishSays(x.redis, at.m, at.connection);
    if at.m in x.redis.matches {
      assert I.LapseInv(x.redis) by { RedisIsGood(x); }
      hide I.LapseInv;
      N.PairOfRecord(x.redis, at.m);
      if PublishConnection(x.redis, at.m, at.connection).1 == 1 {
        N.BroadcastTells(x.redis, y.redis, at.m, ConnectionCreated(at.connection));
      }
    }
  }

  lemma RedisIsGood(x: System)
    requires Inv(x)
    ensures I.LapseInv(x.redis) && forall m | m in x.announced :: m in x.redis.issued
  {
    hide I.LapseInv, L.LogInv, Integrity, HandlerOk;
    forall m | m in x.announced ensures m in x.redis.issued { assert RecordOk(x, m); }
  }

  lemma LogGrows(x: System, a: Action, y: System)
    requires Inv(x) && Next(x, a, y) && !a.Publish?
    ensures N.Prefix(x.redis.published, y.redis.published) && y.announced == x.announced
    ensures forall m | m in x.redis.issued :: m in y.redis.issued && y.redis.issued[m] == x.redis.issued[m]
  {
    RedisIsGood(x);
    hide Inv, I.LapseInv, Apply, ConnectVote;
    match a
    case Redis(t) =>
      forall m | m in x.redis.issued ensures m in y.redis.issued && y.redis.issued[m] == x.redis.issued[m] { N.LogOnlyGrows(x.redis, t, m); }
      N.LogOnlyGrows(x.redis, t, 0);
    case Vote(h, u, socket, m, now) =>
      VoteRedis(x, a, y);
      hide Next;
    case _ =>
  }

  lemma NextTells(x: System, a: Action, y: System, m: MatchId)
    requires Inv(x) && Next(x, a, y) && AnnouncementTold(x, m)
    ensures AnnouncementTold(y, m)
  {
    RedisIsGood(x);
    hide Inv, I.LapseInv, N.BothTold, N.Prefix, Next;
    if a.Publish? {
      PublishTells(x, a, y);
      PublishIssues(x, a, y);
    } else {
      LogGrows(x, a, y);
    }
    if m in x.announced { N.StillTold(x.redis, y.redis, m); }
  }

  lemma PublishIssues(x: System, a: Action, y: System)
    requires a.Publish? && Next(x, a, y)
    ensures y.redis.issued == x.redis.issued
  {}

  /** Nobody who voted is left without the news. */
  lemma {:induction false} AnnouncedIsTold(xs: seq<System>, acts: seq<Action>, n: nat, m: MatchId)
    requires Execution(xs, acts) && n < |xs|
    ensures AnnouncementTold(xs[n], m)
  {
    hide Inv, Next, N.BothTold;
    if n > 0 {
      AnnouncedIsTold(xs, acts, n - 1, m);
      ExecutionKeeps(xs, acts, n - 1);
      assert Next(xs[n - 1], acts[n - 1], xs[n]);
      NextTells(xs[n - 1], acts[n - 1], xs[n], m);
    }
  }

  /** Both tell one user that one match was connected. */
  predicate SameNews(e: Event, f: Event) {
    e.to == f.to && e.id == f.id && e.body.ConnectionCreated? && f.body.ConnectionCreated?
  }

  /** Mutual Connect, in every reachable state of every interleaving: a connection row exists only
      for a match of exactly that pair in which both voted Connect; at most one row per match and
      one active row per pair; an announced connection has been told to both participants, to each
      at most once by broadcast; and every connection.created about a match, broadcast or direct,
      names one and the same row. */
  lemma MutualConnect(xs: seq<System>, acts: seq<Action>, n: nat)
    requires Execution(xs, acts) && n < |xs|
    ensures var x := xs[n];
      && (forall c | c in x.db.connections ::
            var m := x.db.connections[c].encounter;
            BothVoted(x, m) && x.db.connections[c].Joins(PairOf(x, m)))
      && (forall c, d :: RowsApart(x.db, c, d))
      && (forall i, j | 0 <= i < |x.redis.published| && 0 <= j < |x.redis.published| ::
            SameNews(x.redis.published[i], x.redis.published[j]) ==> i == j)
      && (forall m | m in x.announced ::
            && m in x.redis.issued
            && Event(x.redis.issued[m].0, m, ConnectionCreated(x.announced[m])) in x.redis.published
            && Event(x.redis.issued[m].1, m, ConnectionCreated(x.announced[m])) in x.redis.published)
      && (forall e | e in x.redis.published + x.direct ::
            e.body.ConnectionCreated? ==> e.id in x.announced && e.body.connection == x.announced[e.id]
                                          && IsRowOf(x, e.id, e.body.connection) && BothVoted(x, e.id))
  {
    ExecutionKeeps(xs, acts, n);
    var x := xs[n];
    forall m | m in x.announced ensures N.BothTold(x.redis, m, ConnectionCreated(x.announced[m])) { AnnouncedIsTold(xs, acts, n, m); }
    forall c | c in x.db.connections
      ensures var m := x.db.connections[c].encounter; BothVoted(x, m) && x.db.connections[c].Joins(PairOf(x, m))
    {
      assert RowOk(x.db, c) && RecordOk(x, x.db.connections[c].encounter);
    }
    forall i, j | 0 <= i < |x.redis.published| && 0 <= j < |x.redis.published|
      ensures SameNews(x.redis.published[i], x.redis.published[j]) ==> i == j
    {
      assert L.Apart(x.redis.published, i, j) && L.Apart(x.redis.published, j, i);
    }
    forall e | e in x.redis.published + x.direct && e.body.ConnectionCreated?
      ensures e.id in x.announced && e.body.connection == x.announced[e.id]
              && IsRowOf(x, e.id, e.body.connection) && BothVoted(x, e.id)
    {
      assert EventOk(x, e) && RecordOk(x, e.id);
    }
  }

  // ---- what has ended stays ended ----

  lemma EndedRowStays(x: System, a: Action, y: System, c: ConnectionId)
    requires Inv(x) && Next(x, a, y) && c in x.db.connections && x.db.connections[c].endedAt.Some?
    ensures c in y.db.connections && y.db.connections[c] == x.db.connections[c]
  {
    hide I.LapseInv, L.LogInv, Integrity, RecordOk, HandlerOk, EventOk, ConnectVote, PublishConnection, Apply;
    if a.Persist? {
      var id :| Persists(x.db, x.handlers[a.h].state, a.newId, y.db, id);
    }
  }

  /** Does this action persist match `m`? */
  predicate PersistsMatch(x: System, a: Action, m: MatchId) {
    a.Persist? && a.h in x.handlers && x.handlers[a.h].Reread? && x.handlers[a.h].state.id == m
  }

  lemma PersistAddsNoSecondRow(x: System, a: Action, y: System, c: ConnectionId)
    requires Next(x, a, y) && c in x.db.connections && PersistsMatch(x, a, x.db.connections[c].encounter)
    ensures y.db.connections == x.db.connections
  {
    var st := x.handlers[a.h].state;
    var id :| Persists(x.db, st, a.newId, y.db, id);
    assert HasEncounterRow(x.db, st.id);
  }

  lemma OneRowPerMatch(x: System, c: ConnectionId, d: ConnectionId)
    requires Inv(x) && c in x.db.connections && d in x.db.connections && c != d
    ensures x.db.connections[d].encounter != x.db.connections[c].encounter
  {
    hide I.LapseInv, L.LogInv, RecordOk, HandlerOk, EventOk;
    assert RowsApart(x.db, c, d);
  }

  lemma ExecutionAt(xs: seq<System>, acts: seq<Action>, k: nat)
    requires Execution(xs, acts) && k < |acts|
    ensures k + 1 < |xs| && Next(xs[k], acts[k], xs[k + 1])
  {
    hide Next;
  }

  lemma {:induction false} EndedRowOverExecution(xs: seq<System>, acts: seq<Action>, n: nat, k: nat, c: ConnectionId)
    requires Execution(xs, acts) && n <= k < |xs|
    requires c in xs[n].db.connections && xs[n].db.connections[c].endedAt.Some?
    ensures c in xs[k].db.connections && xs[k].db.connections[c] == xs[n].db.connections[c]
    decreases k
  {
    hide Inv, Next;
    if n < k {
      EndedRowOverExecution(xs, acts, n, k - 1, c);
      ExecutionKeeps(xs, acts, k - 1);
      ExecutionAt(xs, acts, k - 1);
      EndedRowStays(xs[k - 1], acts[k - 1], xs[k], c);
    }
  }

  /** An ended connection is final in every execution: its row never changes again, no other row for
      its match is ever there, and persisting the match again adds no row. */
  lemma EndedConnectionIsFinal(xs: seq<System>, acts: seq<Action>, n: nat, k: nat, c: ConnectionId)
    requires Execution(xs, acts) && n <= k < |xs|
    requires c in xs[n].db.connections && xs[n].db.connections[c].endedAt.Some?
    ensures var row := xs[n].db.connections[c];
      && c in xs[k].db.connections && xs[k].db.connections[c] == row
      && (forall d | d in xs[k].db.connections && d != c :: xs[k].db.connections[d].encounter != row.encounter)
      && (k < |acts| && PersistsMatch(xs[k], acts[k], row.encounter) ==> xs[k + 1].db.connections == xs[k].db.connections)
  {
    hide Inv, Next, PersistsMatch;
    EndedRowOverExecution(xs, acts, n, k, c);
    ExecutionKeeps(xs, acts, k);
    forall d | d in xs[k].db.connections && d != c ensures xs[k].db.connections[d].encounter != xs[k].db.connections[c].encounter {
      OneRowPerMatch(xs[k], c, d);
    }
    if k < |acts| {
      ExecutionAt(xs, acts, k);
      if PersistsMatch(xs[k], acts[k], xs[k].db.connections[c].encounter) { PersistAddsNoSecondRow(xs[k], acts[k], xs[k + 1], c); }
    }
  }
}

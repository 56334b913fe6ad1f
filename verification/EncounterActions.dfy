/** What a participant's actions achieve over a whole encounter, and what refuses them: votes,
    absence and return, signals and endings. */
module EncounterActions {
  import opened Basics
  import opened Encounter
  import opened EncounterInvariants
  import L = EncounterLog
  import N = EncounterNews

  predicate AtSocket(s: Keyspace, u: UserId, socket: SocketId) { u in s.presence && s.presence[u] == socket }

  /** `u` is mapped to the match, and its record names `u`. */
  predicate Participates(s: Keyspace, u: UserId, m: MatchId) {
    u in s.mapped && s.mapped[u] == m && m in s.matches && (u == s.matches[m].a || u == s.matches[m].b)
  }

  function PeerOf(r: Match, u: UserId): UserId { if u == r.a then r.b else r.a }

  /** The actions that only a participant at the live socket may take. */
  predicate IsAction(t: Step) { t.DoReconnect? || t.DoRelay? || t.DoEnd? || t.DoExtend? || t.DoConnectVote? }

  /** From a superseded socket, from outside the match, or about a match that is gone, nothing
      happens; the ending in the name of a user needs no socket. A heartbeat says whether the socket
      is still the live one. */
  lemma OutsidersChangeNothing(s: Keyspace, t: Step)
    ensures t.DoHeartbeat? ==> Apply(s, t) == (s, if AtSocket(s, t.u, t.socket) then 1 else 0)
    ensures IsAction(t) && !(AtSocket(s, t.u, t.socket) && Participates(s, t.u, t.m)) ==> Apply(s, t) == (s, 0)
    ensures t.DoEndForUser? && !Participates(s, t.u, t.m) ==> Apply(s, t) == (s, 0)
  {
    hide Finish, Broadcast, Tell, Put;
  }

  // ---- what is accepted ----

  /** A vote to extend counts before the deadline. */
  predicate ExtendCounts(s: Keyspace, t: Step, m: MatchId, u: UserId) {
    && t.DoExtend? && t.m == m && t.u == u && AtSocket(s, u, t.socket) && Participates(s, u, m)
    && s.matches[m].phase.Active? && t.now < s.matches[m].expiresAt
  }

  /** A vote to connect counts in an extended match or before the deadline, until it is persisted. */
  predicate ConnectCounts(s: Keyspace, t: Step, m: MatchId, u: UserId) {
    && t.DoConnectVote? && t.m == m && t.u == u && AtSocket(s, u, t.socket) && Participates(s, u, m)
    && (s.matches[m].phase.Extended? || t.now < s.matches[m].expiresAt) && s.matches[m].connection.None?
  }

  /** `u` closes the socket in the middle of match `m`. */
  predicate GoesAway(s: Keyspace, t: Step, m: MatchId, u: UserId) {
    t.DoDisconnect? && t.u == u && AtSocket(s, u, t.socket) && Participates(s, u, m)
  }

  /** `u` comes back to match `m` before the grace is over. */
  predicate ComesBack(s: Keyspace, t: Step, m: MatchId, u: UserId) {
    && t.DoReconnect? && t.m == m && t.u == u && AtSocket(s, u, t.socket) && Participates(s, u, m)
    && (u in s.matches[m].disconnected ==> t.now < s.matches[m].disconnected[u])
  }

  predicate Marked(s: Keyspace, m: MatchId, u: UserId) { m in s.matches && u in s.matches[m].disconnected }

  /** How a step changes the votes and the mark of `u` in a match that outlasts it. */
  ghost predicate Changes(s: Keyspace, t: Step, e: Keyspace, m: MatchId, u: UserId)
    requires m in s.matches && m in e.matches
  {
    var r, q := s.matches[m], e.matches[m];
    && (u in q.extendVotes <==> u in r.extendVotes || ExtendCounts(s, t, m, u))
    && (u in q.connectVotes <==> u in r.connectVotes || ConnectCounts(s, t, m, u))
    && (if GoesAway(s, t, m, u) then u in q.disconnected && q.disconnected[u] == t.now + 45_000
        else if ComesBack(s, t, m, u) then u !in q.disconnected
        else (u in q.disconnected <==> u in r.disconnected) && (u in q.disconnected ==> q.disconnected[u] == r.disconnected[u]))
    && q.expiresAt == r.expiresAt
  }

  lemma RecordPut(s: Keyspace, n: MatchId, q: Match, m: MatchId)
    requires m in s.matches && n in s.matches
    ensures m in s.matches[n := q] && s.matches[n := q][m] == if m == n then q else s.matches[m]
  {}

  /** A vote that does not complete the pair: it is noted, or nothing happens. */
  lemma HalfVoteSays(s: Keyspace, u: UserId, socket: SocketId, m: MatchId, now: Millis)
    requires AtSocket(s, u, socket) && Participates(s, u, m)
    requires !(s.matches[m].phase.Active? && now < s.matches[m].expiresAt
               && PeerOf(s.matches[m], u) in s.matches[m].extendVotes + {u})
    ensures var r := s.matches[m];
      Extend(s, u, socket, m, now) ==
        if r.phase.Extended? then (s, 2)
        else if r.expiresAt <= now then (s, -1)
        else (s.(matches := s.matches[m := r.(extendVotes := r.extendVotes + {u})]), 1)
  {}

  /** A step that leaves the record as it is, and counts for nothing in it. */
  lemma SameRecordChanges(s: Keyspace, t: Step, e: Keyspace, m: MatchId, u: UserId)
    requires m in s.matches && m in e.matches && e.matches[m] == s.matches[m]
    requires !ExtendCounts(s, t, m, u) && !ConnectCounts(s, t, m, u) && !GoesAway(s, t, m, u) && !ComesBack(s, t, m, u)
    ensures Changes(s, t, e, m, u)
  {}

  lemma ExtendChanges(s: Keyspace, t: Step, m: MatchId, u: UserId)
    requires t.DoExtend? && m in s.matches
    ensures var e := Extend(s, t.u, t.socket, t.m, t.now).0; m in e.matches && Changes(s, t, e, m, u)
  {
    hide Extend;
    if !(AtSocket(s, t.u, t.socket) && Participates(s, t.u, t.m)) {
      OutsidersChangeNothing(s, t);
      SameRecordChanges(s, t, s, m, u);
      hide Changes;
    } else {
      var r := s.matches[t.m];
      if r.phase.Active? && t.now < r.expiresAt && PeerOf(r, t.u) in r.extendVotes + {t.u} {
        N.CompletionSays(s, t.u, t.socket, t.m, t.now);
        RecordPut(s, t.m, r.(extendVotes := r.extendVotes + {t.u}, phase := Extended(t.now)), m);
      } else {
        HalfVoteSays(s, t.u, t.socket, t.m, t.now);
        RecordPut(s, t.m, r.(extendVotes := r.extendVotes + {t.u}), m);
      }
    }
  }

  lemma ConnectVoteSays(s: Keyspace, u: UserId, socket: SocketId, m: MatchId, now: Millis)
    requires AtSocket(s, u, socket) && Participates(s, u, m)
    ensures var r := s.matches[m];
      ConnectVote(s, u, socket, m, now) ==
        if r.phase.Active? && r.expiresAt <= now then (s, -1)
        else if r.connection.Some? then (s, 3)
        else (s.(matches := s.matches[m := r.(connectVotes := r.connectVotes + {u})]),
              if PeerOf(r, u) in r.connectVotes + {u} then 2 else 1)
  {}

  lemma VoteChanges(s: Keyspace, t: Step, m: MatchId, u: UserId)
    requires t.DoConnectVote? && m in s.matches
    ensures var e := ConnectVote(s, t.u, t.socket, t.m, t.now).0; m in e.matches && Changes(s, t, e, m, u)
  {
    hide ConnectVote;
    if !(AtSocket(s, t.u, t.socket) && Participates(s, t.u, t.m)) {
      OutsidersChangeNothing(s, t);
    } else {
      ConnectVoteSays(s, t.u, t.socket, t.m, t.now);
      RecordPut(s, t.m, s.matches[t.m].(connectVotes := s.matches[t.m].connectVotes + {t.u}), m);
    }
  }

  lemma PublishSays(s: Keyspace, m: MatchId, c: ConnectionId)
    ensures PublishConnection(s, m, c) ==
      if m in s.matches && s.matches[m].a in s.matches[m].connectVotes && s.matches[m].b in s.matches[m].connectVotes
         && s.matches[m].connection.None? then
        (s.(matches := s.matches[m := s.matches[m].(connection := Some(c))],
            published := s.published
              + [Event(s.matches[m].a, m, ConnectionCreated(c)), Event(s.matches[m].b, m, ConnectionCreated(c))]), 1)
      else (s, 0)
  {}

  lemma PublishChanges(s: Keyspace, t: Step, m: MatchId, u: UserId)
    requires t.DoPublishConnection? && m in s.matches
    ensures var e := PublishConnection(s, t.m, t.connection).0; m in e.matches && Changes(s, t, e, m, u)
  {
    hide PublishConnection;
    PublishSays(s, t.m, t.connection);
    if t.m in s.matches { RecordPut(s, t.m, s.matches[t.m].(connection := Some(t.connection)), m); }
  }

  lemma ReturnSays(s: Keyspace, u: UserId, socket: SocketId, m: MatchId, now: Millis)
    requires LapseInv(s) && AtSocket(s, u, socket) && Participates(s, u, m)
    ensures var r := s.matches[m];
      Reconnect(s, u, socket, m, now) ==
        if u in r.disconnected && r.disconnected[u] <= now then (s, 0)
        else (s.(matches := s.matches[m := r.(disconnected := r.disconnected - {u})], graces := s.graces - {(m, u)},
                 published := s.published + [Event(PeerOf(r, u), m, PeerBack)]), 1)
  {
    hide LapseInv;
    RecordAt(s, m);
  }

  lemma ReturnChanges(s: Keyspace, t: Step, m: MatchId, u: UserId)
    requires LapseInv(s) && t.DoReconnect? && m in s.matches
    ensures var e := Reconnect(s, t.u, t.socket, t.m, t.now).0; m in e.matches && Changes(s, t, e, m, u)
  {
    hide LapseInv, Reconnect;
    if !(AtSocket(s, t.u, t.socket) && Participates(s, t.u, t.m)) {
      OutsidersChangeNothing(s, t);
    } else {
      ReturnSays(s, t.u, t.socket, t.m, t.now);
      RecordPut(s, t.m, s.matches[t.m].(disconnected := s.matches[t.m].disconnected - {t.u}), m);
    }
  }

  /** Closing the socket: the mark in the record, its index entry, and one message to the peer. */
  lemma AwaySays(s: Keyspace, u: UserId, socket: SocketId, m: MatchId, now: Millis)
    requires AtSocket(s, u, socket) && Participates(s, u, m)
    ensures var r := s.matches[m];
      var (e, reply) := Disconnect(s, u, socket, now);
      && reply == 1 && u !in e.presence
      && e.matches == s.matches[m := r.(disconnected := r.disconnected[u := now + 45_000])]
      && e.graces == s.graces[(m, u) := now + 45_000]
      && e.published == s.published + [Event(PeerOf(r, u), m, PeerGone(now + 45_000))]
  {}

  lemma AwayOutside(s: Keyspace, u: UserId, socket: SocketId, now: Millis)
    requires !(AtSocket(s, u, socket) && u in s.mapped && Participates(s, u, s.mapped[u]))
    ensures var e := Disconnect(s, u, socket, now).0;
      e.matches == s.matches && e.graces == s.graces && e.published == s.published
  {}

  lemma AwayChanges(s: Keyspace, t: Step, m: MatchId, u: UserId)
    requires t.DoDisconnect? && m in s.matches
    ensures var e := Disconnect(s, t.u, t.socket, t.now).0; m in e.matches && Changes(s, t, e, m, u)
  {
    hide Disconnect;
    if AtSocket(s, t.u, t.socket) && t.u in s.mapped && Participates(s, t.u, s.mapped[t.u]) {
      AwaySays(s, t.u, t.socket, s.mapped[t.u], t.now);
    } else {
      AwayOutside(s, t.u, t.socket, t.now);
    }
  }

  lemma FinishChanges(s: Keyspace, n: MatchId, m: MatchId)
    requires n in s.matches && m in s.matches
    ensures forall reason :: m in Finish(s, n, reason).matches ==> Finish(s, n, reason).matches[m] == s.matches[m]
  {}

  /** Steps that leave a record that outlasts them as it is. */
  lemma OthersChangeNoRecord(s: Keyspace, t: Step, m: MatchId)
    requires LapseInv(s) && Legal(s, t) && !Rewrites(t) && m in s.matches && m in Apply(s, t).0.matches
    ensures Apply(s, t).0.matches[m] == s.matches[m]
  {
    RecordAt(s, m);
    hide LapseInv, WellFormed, Finish, Extend, ConnectVote, PublishConnection, Reconnect, Disconnect;
    if Ends(t) {
      EndOutcome(s, t);
      if t.m in s.matches { FinishChanges(s, t.m, m); }
      hide End, EndForUser, Expire, GraceExpire, Apply;
    } else {
      hide End, EndForUser, Expire, GraceExpire;
    }
  }

  lemma RewriteChanges(s: Keyspace, t: Step, m: MatchId, u: UserId)
    requires LapseInv(s) && Rewrites(t) && m in s.matches
    ensures m in Apply(s, t).0.matches && Changes(s, t, Apply(s, t).0, m, u)
  {
    hide LapseInv, Changes, Extend, ConnectVote, PublishConnection, Reconnect, Disconnect, Claim, Relay, End, EndForUser, Expire,
         GraceExpire;
    match t
    case DoExtend(_, _, _, _) => ExtendChanges(s, t, m, u);
    case DoConnectVote(_, _, _, _) => VoteChanges(s, t, m, u);
    case DoPublishConnection(_, _) => PublishChanges(s, t, m, u);
    case DoReconnect(_, _, _, _) => ReturnChanges(s, t, m, u);
    case DoDisconnect(_, _, _) => AwayChanges(s, t, m, u);
  }

  /** Votes are added when they count and never taken back; a mark is set by going away, for 45
      seconds, and taken off by coming back in time; deadlines stand. */
  lemma StepChanges(s: Keyspace, t: Step, m: MatchId, u: UserId)
    requires LapseInv(s) && Legal(s, t) && m in s.matches && m in Apply(s, t).0.matches
    ensures Changes(s, t, Apply(s, t).0, m, u)
  {
    hide LapseInv, Apply;
    if Rewrites(t) {
      hide Changes;
      RewriteChanges(s, t, m, u);
    } else {
      OthersChangeNoRecord(s, t, m);
    }
  }

  // ---- votes, over runs ----

  /** At some point of the run `u` casts a vote to extend `m` that counts. */
  predicate Extends(s: Keyspace, ts: seq<Step>, m: MatchId, u: UserId)
    decreases |ts|
  {
    ts != [] && (ExtendCounts(s, ts[0], m, u) || Extends(Apply(s, ts[0]).0, ts[1..], m, u))
  }

  predicate VotesToConnect(s: Keyspace, ts: seq<Step>, m: MatchId, u: UserId)
    decreases |ts|
  {
    ts != [] && (ConnectCounts(s, ts[0], m, u) || VotesToConnect(Apply(s, ts[0]).0, ts[1..], m, u))
  }

  /** A match that is there after a run has been there all along. */
  lemma {:induction false} GoneStaysGone(s: Keyspace, ts: seq<Step>, m: MatchId)
    requires LapseInv(s) && LegalRun(s, ts) && m in s.issued && m !in s.matches
    ensures m !in Run(s, ts).matches
  {
    L.SettledForever(s, ts, m);
  }

  /** While a match lives, its votes are exactly those cast: none is lost, none is invented. */
  lemma {:induction false} VotesAreThoseCast(s: Keyspace, ts: seq<Step>, m: MatchId, u: UserId)
    requires LapseInv(s) && LegalRun(s, ts) && m in s.matches && m in Run(s, ts).matches
    ensures var r, q := s.matches[m], Run(s, ts).matches[m];
      && (u in q.extendVotes <==> u in r.extendVotes || Extends(s, ts, m, u))
      && (u in q.connectVotes <==> u in r.connectVotes || VotesToConnect(s, ts, m, u))
      && q.expiresAt == r.expiresAt && (q.a, q.b) == (r.a, r.b)
    decreases |ts|
  {
    if ts != [] {
      hide Apply, LapseInv, ExtendCounts, ConnectCounts, GoesAway, ComesBack;
      var e := Apply(s, ts[0]).0;
      StepKeeps(s, ts[0]);
      RecordAt(s, m);
      SamePair(s, ts, m);
      if m !in e.matches { IssuedOnwards(s, ts[0], m); GoneStaysGone(e, ts[1..], m); }
      StepChanges(s, ts[0], m, u);
      VotesAreThoseCast(e, ts[1..], m, u);
    }
  }

  lemma IssuedOnwards(s: Keyspace, t: Step, m: MatchId)
    requires LapseInv(s) && Legal(s, t) && m in s.issued
    ensures m in Apply(s, t).0.issued
  {
    hide Apply, LapseInv;
    N.LogOnlyGrows(s, t, m);
  }

  lemma SamePair(s: Keyspace, ts: seq<Step>, m: MatchId)
    requires LapseInv(s) && LegalRun(s, ts) && m in s.matches && m in Run(s, ts).matches
    ensures (Run(s, ts).matches[m].a, Run(s, ts).matches[m].b) == (s.matches[m].a, s.matches[m].b)
  {
    hide Apply, LapseInv;
    RunKeeps(s, ts);
    N.PairOfRecord(s, m);
    N.PairOfRecord(Run(s, ts), m);
    L.SettledForever(s, ts, m);
  }

  /** A live match has been extended exactly when both have cast a vote that counts. */
  lemma ExtendedExactlyByBothVotes(s: Keyspace, ts: seq<Step>, m: MatchId)
    requires LapseInv(s) && LegalRun(s, ts) && m in s.matches && m in Run(s, ts).matches
    ensures var r, q := s.matches[m], Run(s, ts).matches[m];
      q.phase.Extended? <==>
        (r.a in r.extendVotes || Extends(s, ts, m, r.a)) && (r.b in r.extendVotes || Extends(s, ts, m, r.b))
  {
    hide Apply, LapseInv, Extends, VotesToConnect;
    RunKeeps(s, ts);
    RecordAt(Run(s, ts), m);
    VotesAreThoseCast(s, ts, m, s.matches[m].a);
    VotesAreThoseCast(s, ts, m, s.matches[m].b);
  }

  /** The answers: the second vote that counts extends the match at once and tells both; the first
      is kept to oneself; a late one is refused. */
  lemma VoteIsAnswered(s: Keyspace, t: Step)
    requires LapseInv(s) && t.DoExtend? && AtSocket(s, t.u, t.socket) && Participates(s, t.u, t.m)
    ensures var r := s.matches[t.m];
      var (e, reply) := Apply(s, t);
      if r.phase.Extended? then reply == 2 && e == s
      else if r.expiresAt <= t.now then reply == -1 && e == s
      else if PeerOf(r, t.u) in r.extendVotes then
        reply == 2 && N.BothTold(e, t.m, MatchExtended(t.now)) && t.m in e.matches && e.matches[t.m].phase == Extended(t.now)
        && t.m !in e.deadlines
      else reply == 1 && e.published == s.published && t.m in e.matches && e.matches[t.m].phase.Active?
  {
    hide LapseInv, Extend;
    var r := s.matches[t.m];
    RecordAt(s, t.m);
    if r.phase.Active? && t.now < r.expiresAt && PeerOf(r, t.u) in r.extendVotes + {t.u} {
      N.CompletionSays(s, t.u, t.socket, t.m, t.now);
      N.BroadcastTells(s, Extend(s, t.u, t.socket, t.m, t.now).0, t.m, MatchExtended(t.now));
    } else {
      HalfVoteSays(s, t.u, t.socket, t.m, t.now);
    }
    hide WellFormed, N.BothTold;
  }

  /** The same for votes to connect: 3 when the outcome is stored, 2 when the pair is complete. */
  lemma ConnectVoteIsAnswered(s: Keyspace, t: Step)
    requires LapseInv(s) && t.DoConnectVote? && AtSocket(s, t.u, t.socket) && Participates(s, t.u, t.m)
    ensures var r := s.matches[t.m];
      var (e, reply) := Apply(s, t);
      && e.published == s.published
      && if r.phase.Active? && r.expiresAt <= t.now then reply == -1 && e == s
         else if r.connection.Some? then reply == 3 && e == s
         else
           t.m in e.matches && t.u in e.matches[t.m].connectVotes
           && reply == if PeerOf(r, t.u) in r.connectVotes then 2 else 1
  {
    hide LapseInv, ConnectVote;
    RecordAt(s, t.m);
    ConnectVoteSays(s, t.u, t.socket, t.m, t.now);
  }

  // ---- absence and return, over runs ----

  /** Neither another closing of the socket nor a return of `u` changes the mark. */
  predicate NoMove(s: Keyspace, ts: seq<Step>, m: MatchId, u: UserId)
    decreases |ts|
  {
    ts != [] ==> !GoesAway(s, ts[0], m, u) && !ComesBack(s, ts[0], m, u) && NoMove(Apply(s, ts[0]).0, ts[1..], m, u)
  }

  /** `u` does not go away from `m` in this run. */
  predicate Stays(s: Keyspace, ts: seq<Step>, m: MatchId, u: UserId)
    decreases |ts|
  {
    ts != [] ==> !GoesAway(s, ts[0], m, u) && Stays(Apply(s, ts[0]).0, ts[1..], m, u)
  }

  lemma {:induction false} MarkLasts(s: Keyspace, ts: seq<Step>, m: MatchId, u: UserId)
    requires LapseInv(s) && LegalRun(s, ts) && NoMove(s, ts, m, u) && Marked(s, m, u) && m in Run(s, ts).matches
    ensures Marked(Run(s, ts), m, u) && Run(s, ts).matches[m].disconnected[u] == s.matches[m].disconnected[u]
    decreases |ts|
  {
    if ts != [] {
      hide Apply, LapseInv, ExtendCounts, ConnectCounts, GoesAway, ComesBack;
      var e := Apply(s, ts[0]).0;
      StepKeeps(s, ts[0]);
      RecordAt(s, m);
      if m !in e.matches { IssuedOnwards(s, ts[0], m); GoneStaysGone(e, ts[1..], m); }
      StepChanges(s, ts[0], m, u);
      MarkLasts(e, ts[1..], m, u);
    }
  }

  lemma {:induction false} NoMarkAppears(s: Keyspace, ts: seq<Step>, m: MatchId, u: UserId)
    requires LapseInv(s) && LegalRun(s, ts) && Stays(s, ts, m, u) && m in s.issued && !Marked(s, m, u)
    ensures !Marked(Run(s, ts), m, u)
    decreases |ts|
  {
    if ts != [] {
      hide Apply, LapseInv, ExtendCounts, ConnectCounts, GoesAway, ComesBack;
      var e := Apply(s, ts[0]).0;
      StepKeeps(s, ts[0]);
      IssuedOnwards(s, ts[0], m);
      if m in s.matches && m in e.matches { StepChanges(s, ts[0], m, u); }
      if m !in s.matches { GoneStaysGone(s, [ts[0]], m); RunOfOne(s, ts[0]); }
      NoMarkAppears(e, ts[1..], m, u);
    }
  }

  lemma RunOfOne(s: Keyspace, t: Step)
    ensures Run(s, [t]) == Apply(s, t).0 && (LegalRun(s, [t]) <==> Legal(s, t))
  {
    hide Apply;
    assert [t][1..] == [];
  }

  /** What the sweeper does about an absence: it ends the match exactly when the mark is due. */
  lemma GraceDecides(s: Keyspace, m: MatchId, u: UserId, now: Millis)
    requires LapseInv(s) && m in s.matches
    ensures var (e, reply) := GraceExpire(s, m, u, now);
      if Marked(s, m, u) && s.matches[m].disconnected[u] <= now then
        reply == 1 && m !in e.matches && N.BothTold(e, m, MatchEnded(PeerDisconnected))
      else reply == 0 && e == s
  {
    InvAt(s, u, m, (m, u));
    RecordAt(s, m);
    hide LapseInv, UserOk, MatchOk, N.BothTold, Finish;
    N.FinishTells(s, m, PeerDisconnected);
  }

  /** Going away and staying away: the peer is told until when to wait, and whatever happens in
      between, from 45 seconds on the sweeper ends the match, and not before. */
  lemma AbsenceEndsTheMatch(s: Keyspace, t: Step, ts: seq<Step>, m: MatchId, u: UserId, at: Millis)
    requires LapseInv(s) && GoesAway(s, t, m, u) && LegalRun(Apply(s, t).0, ts) && NoMove(Apply(s, t).0, ts, m, u)
    requires m in Run(Apply(s, t).0, ts).matches
    ensures Event(PeerOf(s.matches[m], u), m, PeerGone(t.now + 45_000)) in Apply(s, t).0.published
    ensures var f := Run(Apply(s, t).0, ts);
      var (e, reply) := GraceExpire(f, m, u, at);
      if t.now + 45_000 <= at then reply == 1 && m !in e.matches && N.BothTold(e, m, MatchEnded(PeerDisconnected))
      else reply == 0 && e == f
  {
    var e := Apply(s, t).0;
    AwaySays(s, u, t.socket, m, t.now);
    assert e.published[|s.published|] == Event(PeerOf(s.matches[m], u), m, PeerGone(t.now + 45_000));
    hide Apply, LapseInv, N.BothTold, Disconnect;
    StepKeeps(s, t);
    MarkLasts(e, ts, m, u);
    RunKeeps(e, ts);
    GraceDecides(Run(e, ts), m, u, at);
  }

  /** Coming back in time: the peer is told, and until the user goes away again the sweeper never
      ends the match over this user's absence. */
  lemma ReturnIsFinal(s: Keyspace, t: Step, ts: seq<Step>, m: MatchId, u: UserId, at: Millis)
    requires LapseInv(s) && ComesBack(s, t, m, u) && LegalRun(Apply(s, t).0, ts) && Stays(Apply(s, t).0, ts, m, u)
    ensures Apply(s, t).1 == 1 && Event(PeerOf(s.matches[m], u), m, PeerBack) in Apply(s, t).0.published
    ensures var f := Run(Apply(s, t).0, ts); m in f.matches ==> GraceExpire(f, m, u, at) == (f, 0)
  {
    var e := Apply(s, t).0;
    ReturnSays(s, u, t.socket, m, t.now);
    assert e.published[|s.published|] == Event(PeerOf(s.matches[m], u), m, PeerBack);
    RecordAt(s, m);
    hide Apply, LapseInv, N.BothTold, Reconnect;
    StepKeeps(s, t);
    StepChanges(s, t, m, u);
    IssuedOnwards(s, t, m);
    NoMarkAppears(e, ts, m, u);
    RunKeeps(e, ts);
    if m in Run(e, ts).matches { GraceDecides(Run(e, ts), m, u, at); }
  }

  /** Coming back too late is refused and changes nothing. */
  lemma LateReturnIsRefused(s: Keyspace, t: Step)
    requires LapseInv(s) && t.DoReconnect? && !ComesBack(s, t, t.m, t.u)
    ensures Apply(s, t) == (s, 0)
  {
    hide LapseInv;
    if AtSocket(s, t.u, t.socket) && Participates(s, t.u, t.m) {
      ReturnSays(s, t.u, t.socket, t.m, t.now);
      hide Reconnect;
    } else {
      OutsidersChangeNothing(s, t);
    }
  }

  // ---- signals and endings ----

  /** A signal reaches the peer, and only a peer who is there; nothing else changes. */
  lemma SignalReachesThePeer(s: Keyspace, t: Step)
    requires t.DoRelay?
    ensures var (e, reply) := Apply(s, t);
      if AtSocket(s, t.u, t.socket) && Participates(s, t.u, t.m) && PeerOf(s.matches[t.m], t.u) in s.presence then
        reply == 1 && e == s.(published := s.published + [Event(PeerOf(s.matches[t.m], t.u), t.m, Signal(t.payload))])
      else reply == 0 && e == s
  {
    hide Connect, Enqueue, Claim, Extend, ConnectVote, PublishConnection, Reconnect, Disconnect, End, EndForUser, Expire,
         GraceExpire;
  }

  /** An ending by a participant: the match is gone, neither is held by it any more, nobody else is
      touched, and both are told why. */
  lemma EndingFreesBoth(s: Keyspace, t: Step)
    requires (t.DoEnd? && AtSocket(s, t.u, t.socket)) || t.DoEndForUser?
    requires LapseInv(s) && Participates(s, t.u, t.m)
    ensures var r := s.matches[t.m];
      var (e, reply) := Apply(s, t);
      && reply == 1 && e.matches == s.matches - {t.m} && e.mapped == s.mapped - {r.a, r.b}
      && t.m !in e.deadlines && (t.m, r.a) !in e.graces && (t.m, r.b) !in e.graces
      && e.queue == s.queue && e.presence == s.presence
      && N.BothTold(e, t.m, MatchEnded(t.reason))
  {
    N.FinishTells(s, t.m, t.reason);
    hide LapseInv, N.BothTold, Claim, Extend, ConnectVote, PublishConnection, Reconnect, Disconnect, Expire, GraceExpire;
  }
}

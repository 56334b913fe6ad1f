/** What every script keeps, over every interleaving of sockets, sweepers and lapsing keys. */
module EncounterInvariants {
  import opened Basics
  import opened Encounter
  import opened Preferences

  // ---- kept even when the keys of a live match lapse ----

  /** A match hash, against the pair its identifier was issued for. */
  ghost predicate WellFormed(r: Match, pair: (UserId, UserId)) {
    && (r.a, r.b) == pair && r.a != r.b
    && r.extendVotes <= {r.a, r.b} && r.connectVotes <= {r.a, r.b} && r.disconnected.Keys <= {r.a, r.b}
    && (r.phase.Extended? <==> {r.a, r.b} <= r.extendVotes)
    && (r.phase.Extended? ==> r.phase.at < r.expiresAt)
    && (r.connection.Some? ==> {r.a, r.b} <= r.connectVotes)
    && (forall u | u in r.disconnected :: 0 < r.disconnected[u])
  }

  /** Queue keys are preference keys, and nobody queued is matched. */
  ghost predicate UserOk(s: Keyspace, u: UserId) {
    && (u in s.queue <==> u in s.prefs)
    && !(u in s.queue && u in s.mapped)
    && (u in s.mapped ==> s.mapped[u] in s.issued)
  }

  /** The deadline index holds exactly the active records, at their own deadline; an entry
      without a record is an orphan. */
  ghost predicate MatchOk(s: Keyspace, m: MatchId) {
    && (m in s.deadlines ==> m in s.issued)
    && (m in s.matches ==>
          && m in s.issued && WellFormed(s.matches[m], s.issued[m])
          && (m in s.deadlines <==> s.matches[m].phase.Active?)
          && (m in s.deadlines ==> s.deadlines[m] == s.matches[m].expiresAt))
  }

  /** The disconnect index holds exactly the disconnect marks of the records. */
  ghost predicate GraceOk(s: Keyspace, k: (MatchId, UserId)) {
    && (k in s.graces ==> k.0 in s.issued)
    && (k.0 in s.matches ==>
          && (k in s.graces <==> k.1 in s.matches[k.0].disconnected)
          && (k in s.graces ==> s.graces[k] == s.matches[k.0].disconnected[k.1]))
  }

  ghost predicate LapseInv(s: Keyspace) {
    && (forall u :: UserOk(s, u))
    && (forall m :: MatchOk(s, m))
    && (forall k :: GraceOk(s, k))
  }

  // ---- kept as long as they do not ----

  ghost predicate MappedOk(s: Keyspace, u: UserId) {
    u in s.mapped ==> s.Member(u, s.mapped[u])
  }

  ghost predicate PairOk(s: Keyspace, m: MatchId) {
    && (m in s.matches ==> s.InMatch(s.matches[m].a, m) && s.InMatch(s.matches[m].b, m))
    && (m in s.deadlines ==> m in s.matches)
  }

  ghost predicate OwnedGrace(s: Keyspace, k: (MatchId, UserId)) {
    k in s.graces ==> k.0 in s.matches
  }

  /** A live match and its participants point at each other, and no index entry is an orphan. */
  ghost predicate BaseInv(s: Keyspace) {
    && LapseInv(s)
    && (forall u :: MappedOk(s, u))
    && (forall m :: PairOk(s, m))
    && (forall k :: OwnedGrace(s, k))
  }

  // ---- one step, seen at one user, one match and one index entry ----

  ghost predicate OkAt(s: Keyspace, u: UserId, n: MatchId, k: (MatchId, UserId)) {
    UserOk(s, u) && MatchOk(s, n) && GraceOk(s, k)
  }

  ghost predicate BaseAt(s: Keyspace, u: UserId, n: MatchId, k: (MatchId, UserId)) {
    MappedOk(s, u) && PairOk(s, n) && OwnedGrace(s, k)
  }

  lemma InvAt(s: Keyspace, u: UserId, n: MatchId, k: (MatchId, UserId))
    requires LapseInv(s)
    ensures OkAt(s, u, n, k)
    ensures BaseInv(s) ==> BaseAt(s, u, n, k)
  {
    hide UserOk, MatchOk, GraceOk, MappedOk, PairOk, OwnedGrace;
  }

  /** Presence, recent pairs and the log are free of invariants. */
  lemma SideKeysAt(s: Keyspace, e: Keyspace, u: UserId, n: MatchId, k: (MatchId, UserId))
    requires e == s.(presence := e.presence, recent := e.recent, published := e.published)
    ensures OkAt(s, u, n, k) ==> OkAt(e, u, n, k)
    ensures BaseAt(s, u, n, k) ==> BaseAt(e, u, n, k)
  {}

  lemma FinishAt(s: Keyspace, m: MatchId, reason: Reason, u: UserId, n: MatchId, k: (MatchId, UserId))
    requires LapseInv(s) && m in s.matches
    ensures OkAt(Finish(s, m, reason), u, n, k)
    ensures BaseInv(s) ==> BaseAt(Finish(s, m, reason), u, n, k)
  {
    InvAt(s, u, n, k);
    InvAt(s, u, m, k);
    assert k == (k.0, k.1);
  }

  lemma ClaimAt(s: Keyspace, e: Keyspace, a: UserId, b: UserId, sa: SocketId, sb: SocketId, m: MatchId, intent: string,
                shared: seq<string>, now: Millis, allowRecent: bool, u: UserId, n: MatchId, k: (MatchId, UserId))
    requires LapseInv(s) && a != b && m !in s.issued
    requires e == Claim(s, a, b, sa, sb, m, intent, shared, now, allowRecent).0
    ensures OkAt(e, u, n, k)
  {
    InvAt(s, u, n, k);
    InvAt(s, u, m, k);
  }

  lemma ClaimBaseAt(s: Keyspace, e: Keyspace, a: UserId, b: UserId, sa: SocketId, sb: SocketId, m: MatchId, intent: string,
                shared: seq<string>, now: Millis, allowRecent: bool, u: UserId, n: MatchId, k: (MatchId, UserId))
    requires BaseInv(s) && a != b && m !in s.issued
    requires e == Claim(s, a, b, sa, sb, m, intent, shared, now, allowRecent).0
    ensures BaseAt(e, u, n, k)
  {
    InvAt(s, u, n, k);
    InvAt(s, u, m, k);
  }

  lemma ReconnectAt(s: Keyspace, v: UserId, socket: SocketId, m: MatchId, now: Millis, u: UserId, n: MatchId, k: (MatchId, UserId))
    requires LapseInv(s)
    ensures OkAt(Reconnect(s, v, socket, m, now).0, u, n, k)
    ensures BaseInv(s) ==> BaseAt(Reconnect(s, v, socket, m, now).0, u, n, k)
  {
    InvAt(s, u, n, k);
    InvAt(s, u, m, k);
    assert k == (k.0, k.1);
  }

  /** A record rewritten without touching what the indexes hold about it. */
  lemma PutAt(s: Keyspace, m: MatchId, r: Match, u: UserId, n: MatchId, k: (MatchId, UserId))
    requires LapseInv(s) && m in s.matches && m in s.issued && WellFormed(r, s.issued[m])
    requires r == s.matches[m].(phase := r.phase, extendVotes := r.extendVotes, connectVotes := r.connectVotes, connection := r.connection)
    requires r.phase.Active? <==> s.matches[m].phase.Active?
    ensures OkAt(Put(s, m, r), u, n, k)
    ensures BaseInv(s) ==> BaseAt(Put(s, m, r), u, n, k)
  {
    InvAt(s, u, n, k);
    InvAt(s, u, m, k);
  }

  /** A record that becomes extended leaves the deadline index. */
  lemma PutExtendedAt(s: Keyspace, m: MatchId, r: Match, u: UserId, n: MatchId, k: (MatchId, UserId))
    requires LapseInv(s) && m in s.matches && m in s.issued && WellFormed(r, s.issued[m])
    requires r == s.matches[m].(phase := r.phase, extendVotes := r.extendVotes) && r.phase.Extended?
    ensures OkAt(Put(s, m, r).(deadlines := s.deadlines - {m}), u, n, k)
    ensures BaseInv(s) ==> BaseAt(Put(s, m, r).(deadlines := s.deadlines - {m}), u, n, k)
  {
    InvAt(s, u, n, k);
    InvAt(s, u, m, k);
  }

  lemma ExtendAt(s: Keyspace, v: UserId, socket: SocketId, m: MatchId, now: Millis, u: UserId, n: MatchId, k: (MatchId, UserId))
    requires LapseInv(s)
    ensures OkAt(Extend(s, v, socket, m, now).0, u, n, k)
    ensures BaseInv(s) ==> BaseAt(Extend(s, v, socket, m, now).0, u, n, k)
  {
    hide UserOk, GraceOk, MappedOk, PairOk, OwnedGrace, OkAt, BaseAt;
    InvAt(s, u, n, k);
    var e := Extend(s, v, socket, m, now).0;
    if e != s {
      RecordAt(s, m);
      var r := e.matches[m];
      if r.phase.Active? { PutAt(s, m, r, u, n, k); }
      else {
        PutExtendedAt(s, m, r, u, n, k);
        SideKeysAt(Put(s, m, r).(deadlines := s.deadlines - {m}), e, u, n, k);
      }
    }
  }

  lemma RecordAt(s: Keyspace, m: MatchId)
    requires LapseInv(s) && m in s.matches
    ensures m in s.issued && WellFormed(s.matches[m], s.issued[m])
  {
    InvAt(s, 0, m, (0, 0));
  }

  lemma VoteAt(s: Keyspace, v: UserId, socket: SocketId, m: MatchId, now: Millis, u: UserId, n: MatchId, k: (MatchId, UserId))
    requires LapseInv(s)
    ensures OkAt(ConnectVote(s, v, socket, m, now).0, u, n, k)
    ensures BaseInv(s) ==> BaseAt(ConnectVote(s, v, socket, m, now).0, u, n, k)
  {
    hide UserOk, GraceOk, MappedOk, PairOk, OwnedGrace, OkAt, BaseAt;
    InvAt(s, u, n, k);
    var e := ConnectVote(s, v, socket, m, now).0;
    if e != s {
      RecordAt(s, m);
      PutAt(s, m, e.matches[m], u, n, k);
    }
  }

  lemma PublishAt(s: Keyspace, m: MatchId, connection: ConnectionId, u: UserId, n: MatchId, k: (MatchId, UserId))
    requires LapseInv(s)
    ensures OkAt(PublishConnection(s, m, connection).0, u, n, k)
    ensures BaseInv(s) ==> BaseAt(PublishConnection(s, m, connection).0, u, n, k)
  {
    hide UserOk, GraceOk, MappedOk, PairOk, OwnedGrace, OkAt, BaseAt;
    InvAt(s, u, n, k);
    var e := PublishConnection(s, m, connection).0;
    if e != s {
      RecordAt(s, m);
      PutAt(s, m, e.matches[m], u, n, k);
      SideKeysAt(Put(s, m, e.matches[m]), e, u, n, k);
    }
  }

  lemma DisconnectUserAt(s: Keyspace, v: UserId, socket: SocketId, now: Millis, u: UserId)
    requires LapseInv(s)
    ensures UserOk(Disconnect(s, v, socket, now).0, u)
  {
    InvAt(s, u, 0, (0, 0));
    hide LapseInv, BaseInv, OkAt, BaseAt, MatchOk, GraceOk, MappedOk, PairOk, OwnedGrace;
  }

  lemma DisconnectMatchAt(s: Keyspace, v: UserId, socket: SocketId, now: Millis, n: MatchId)
    requires LapseInv(s)
    ensures MatchOk(Disconnect(s, v, socket, now).0, n)
  {
    InvAt(s, v, n, (0, 0));
    hide LapseInv, BaseInv, BaseAt, UserOk, GraceOk, MappedOk, PairOk, OwnedGrace;
  }

  lemma DisconnectGraceAt(s: Keyspace, v: UserId, socket: SocketId, now: Millis, k: (MatchId, UserId))
    requires LapseInv(s)
    ensures GraceOk(Disconnect(s, v, socket, now).0, k)
  {
    InvAt(s, v, k.0, k);
    hide WellFormed;
    assert k == (k.0, k.1);
    if v in s.mapped { InvAt(s, v, s.mapped[v], k); }
  }

  lemma DisconnectAt(s: Keyspace, v: UserId, socket: SocketId, now: Millis, u: UserId, n: MatchId, k: (MatchId, UserId))
    requires LapseInv(s)
    ensures OkAt(Disconnect(s, v, socket, now).0, u, n, k)
  {
    hide Disconnect, UserOk, MatchOk, GraceOk;
    DisconnectUserAt(s, v, socket, now, u);
    DisconnectMatchAt(s, v, socket, now, n);
    DisconnectGraceAt(s, v, socket, now, k);
  }

  lemma DisconnectBaseAt(s: Keyspace, v: UserId, socket: SocketId, now: Millis, u: UserId, n: MatchId, k: (MatchId, UserId))
    requires BaseInv(s)
    ensures BaseAt(Disconnect(s, v, socket, now).0, u, n, k)
  {
    InvAt(s, u, n, k);
    InvAt(s, v, n, k);
    if v in s.mapped { InvAt(s, u, s.mapped[v], k); }
    hide UserOk, MatchOk, GraceOk, LapseInv, BaseInv, OkAt;
  }

  lemma EnqueueAt(s: Keyspace, v: UserId, socket: SocketId, p: Preferences, now: Millis, u: UserId, n: MatchId, k: (MatchId, UserId))
    requires LapseInv(s)
    ensures OkAt(Enqueue(s, v, socket, p, now).0, u, n, k)
    ensures BaseInv(s) ==> BaseAt(Enqueue(s, v, socket, p, now).0, u, n, k)
  {
    InvAt(s, u, n, k);
  }

  lemma UnqueueAt(s: Keyspace, v: UserId, u: UserId, n: MatchId, k: (MatchId, UserId))
    requires LapseInv(s)
    ensures OkAt(Unqueue(s, {v}), u, n, k)
    ensures BaseInv(s) ==> BaseAt(Unqueue(s, {v}), u, n, k)
  {
    InvAt(s, u, n, k);
  }

  lemma GraceExpireAt(s: Keyspace, m: MatchId, v: UserId, now: Millis, u: UserId, n: MatchId, k: (MatchId, UserId))
    requires LapseInv(s)
    ensures OkAt(GraceExpire(s, m, v, now).0, u, n, k)
    ensures BaseInv(s) ==> BaseAt(GraceExpire(s, m, v, now).0, u, n, k)
  {
    hide Finish;
    InvAt(s, u, n, k);
    InvAt(s, u, n, (m, v));
    InvAt(s, u, m, k);
    if m in s.matches { FinishAt(s, m, PeerDisconnected, u, n, k); }
  }

  lemma LapseMappingAt(s: Keyspace, v: UserId, u: UserId, n: MatchId, k: (MatchId, UserId))
    requires LapseInv(s)
    ensures OkAt(s.(mapped := s.mapped - {v}), u, n, k)
  {
    InvAt(s, u, n, k);
  }

  lemma LapseMatchAt(s: Keyspace, m: MatchId, u: UserId, n: MatchId, k: (MatchId, UserId))
    requires LapseInv(s)
    ensures OkAt(s.(matches := s.matches - {m}), u, n, k)
  {
    InvAt(s, u, n, k);
  }

  /** Steps on presence, recent pairs and the log alone. */
  predicate IsSideStep(t: Step) { t.DoConnect? || t.DoHeartbeat? || t.DoRelay? || t.LapsePresence? || t.LapseRecent? }

  lemma SideStepAt(s: Keyspace, t: Step, u: UserId, n: MatchId, k: (MatchId, UserId))
    requires LapseInv(s) && IsSideStep(t)
    ensures OkAt(Apply(s, t).0, u, n, k)
    ensures BaseInv(s) ==> BaseAt(Apply(s, t).0, u, n, k)
  {
    hide OkAt, BaseAt, LapseInv, BaseInv, Claim, Enqueue, LeaveQueue, CleanupQueued, Reconnect, Extend, ConnectVote, PublishConnection,
         Disconnect, Expire, GraceExpire, End, EndForUser;
    InvAt(s, u, n, k);
    SideKeysAt(s, Apply(s, t).0, u, n, k);
  }

  lemma UnqueueStepAt(s: Keyspace, t: Step, u: UserId, n: MatchId, k: (MatchId, UserId))
    requires LapseInv(s) && (t.DoLeaveQueue? || t.DoCleanup?)
    ensures OkAt(Apply(s, t).0, u, n, k)
    ensures BaseInv(s) ==> BaseAt(Apply(s, t).0, u, n, k)
  {
    hide OkAt, BaseAt, LapseInv, BaseInv, Unqueue, Claim, Enqueue, Relay, Reconnect, Extend, ConnectVote, PublishConnection, Disconnect,
         Expire, GraceExpire, End, EndForUser;
    InvAt(s, u, n, k);
    UnqueueAt(s, t.u, u, n, k);
  }

  lemma EndStepAt(s: Keyspace, t: Step, u: UserId, n: MatchId, k: (MatchId, UserId))
    requires LapseInv(s) && (t.DoEnd? || t.DoEndForUser?)
    ensures OkAt(Apply(s, t).0, u, n, k)
    ensures BaseInv(s) ==> BaseAt(Apply(s, t).0, u, n, k)
  {
    hide OkAt, BaseAt, LapseInv, BaseInv, Finish, Claim, Enqueue, LeaveQueue, CleanupQueued, Relay, Reconnect, Extend, ConnectVote,
         PublishConnection, Disconnect, Expire, GraceExpire;
    InvAt(s, u, n, k);
    if t.m in s.matches { FinishAt(s, t.m, t.reason, u, n, k); }
  }

  lemma StepAt(s: Keyspace, t: Step, u: UserId, n: MatchId, k: (MatchId, UserId))
    requires LapseInv(s) && Legal(s, t)
    ensures OkAt(Apply(s, t).0, u, n, k)
    ensures BaseInv(s) && Durable(t) ==> BaseAt(Apply(s, t).0, u, n, k)
  {
    hide Connect, Heartbeat, Claim, Enqueue, LeaveQueue, CleanupQueued, Reconnect, Relay, Extend, ConnectVote, PublishConnection,
         Disconnect, Expire, GraceExpire, End, EndForUser, OkAt, BaseAt, LapseInv, BaseInv;
    match t
    case DoEnqueue(v, socket, p, now) => EnqueueAt(s, v, socket, p, now, u, n, k);
    case DoLeaveQueue(_, _) => UnqueueStepAt(s, t, u, n, k);
    case DoCleanup(_, _) => UnqueueStepAt(s, t, u, n, k);
    case DoClaim(a, b, sa, sb, m, intent, shared, now, allowRecent) =>
      ClaimAt(s, Apply(s, t).0, a, b, sa, sb, m, intent, shared, now, allowRecent, u, n, k);
      if BaseInv(s) { ClaimBaseAt(s, Apply(s, t).0, a, b, sa, sb, m, intent, shared, now, allowRecent, u, n, k); }
    case DoReconnect(v, socket, m, now) => ReconnectAt(s, v, socket, m, now, u, n, k);
    case DoEnd(_, _, _, _) => EndStepAt(s, t, u, n, k);
    case DoEndForUser(_, _, _) => EndStepAt(s, t, u, n, k);
    case DoExtend(v, socket, m, now) => ExtendAt(s, v, socket, m, now, u, n, k);
    case DoConnectVote(v, socket, m, now) => VoteAt(s, v, socket, m, now, u, n, k);
    case DoPublishConnection(m, connection) => PublishAt(s, m, connection, u, n, k);
    case DoDisconnect(v, socket, now) =>
      DisconnectAt(s, v, socket, now, u, n, k);
      if BaseInv(s) { DisconnectBaseAt(s, v, socket, now, u, n, k); }
    case DoExpire(m, now) => ExpireAt(s, m, now, u, n, k);
    case DoGraceExpire(m, v, now) => GraceExpireAt(s, m, v, now, u, n, k);
    case LapseMapping(v) => LapseMappingAt(s, v, u, n, k);
    case LapseMatch(m) => LapseMatchAt(s, m, u, n, k);
    case _ => SideStepAt(s, t, u, n, k);
  }

  /** An orphan leaves the deadline index. */
  lemma OrphanAt(s: Keyspace, m: MatchId, u: UserId, n: MatchId, k: (MatchId, UserId))
    requires LapseInv(s) && m !in s.matches
    ensures OkAt(s.(deadlines := s.deadlines - {m}), u, n, k)
    ensures BaseInv(s) ==> BaseAt(s.(deadlines := s.deadlines - {m}), u, n, k)
  {
    hide WellFormed;
    InvAt(s, u, n, k);
  }

  lemma ExpireAt(s: Keyspace, m: MatchId, now: Millis, u: UserId, n: MatchId, k: (MatchId, UserId))
    requires LapseInv(s)
    ensures OkAt(Expire(s, m, now).0, u, n, k)
    ensures BaseInv(s) ==> BaseAt(Expire(s, m, now).0, u, n, k)
  {
    hide Finish, OkAt, BaseAt;
    InvAt(s, u, n, k);
    if m in s.matches { FinishAt(s, m, Expired, u, n, k); } else { OrphanAt(s, m, u, n, k); }
  }

  /** Main invariant: every legal step, lapsing keys included, keeps the queue, the records and
      both deadline indexes in agreement; without lapses it also keeps the bijection. */
  lemma StepKeeps(s: Keyspace, t: Step)
    requires LapseInv(s) && Legal(s, t)
    ensures LapseInv(Apply(s, t).0)
    ensures BaseInv(s) && Durable(t) ==> BaseInv(Apply(s, t).0)
  {
    hide Apply, UserOk, MatchOk, GraceOk, MappedOk, PairOk, OwnedGrace;
    var e := Apply(s, t).0;
    forall u ensures UserOk(e, u) && (BaseInv(s) && Durable(t) ==> MappedOk(e, u)) { StepAt(s, t, u, 0, (0, 0)); }
    forall n ensures MatchOk(e, n) && (BaseInv(s) && Durable(t) ==> PairOk(e, n)) { StepAt(s, t, 0, n, (0, 0)); }
    forall k ensures GraceOk(e, k) && (BaseInv(s) && Durable(t) ==> OwnedGrace(e, k)) { StepAt(s, t, 0, 0, k); }
  }

  /** Every state reached from the empty keyspace. */
  lemma {:induction false} RunKeeps(s: Keyspace, ts: seq<Step>)
    requires LapseInv(s) && LegalRun(s, ts)
    ensures LapseInv(Run(s, ts))
    ensures BaseInv(s) && (forall t | t in ts :: Durable(t)) ==> BaseInv(Run(s, ts))
    decreases |ts|
  {
    if ts != [] {
      StepKeeps(s, ts[0]);
      RunKeeps(Apply(s, ts[0]).0, ts[1..]);
    }
  }

  /** Safety in plain words. In every reachable state the queue and the stored preferences cover
      the same users, none of whom is matched, and an extended match has both votes and was
      extended before its deadline; without lapses of live keys, a match also has two distinct
      participants, and both and only they are mapped to it. */
  lemma ReachableEncounters(ts: seq<Step>)
    requires LegalRun(EMPTY, ts)
    ensures var s := Run(EMPTY, ts);
      && s.queue.Keys !! s.mapped.Keys && s.queue.Keys == s.prefs.Keys
      && (forall m | m in s.matches :: s.matches[m].a != s.matches[m].b)
      && (forall m | m in s.matches && s.matches[m].phase.Extended? ::
            {s.matches[m].a, s.matches[m].b} <= s.matches[m].extendVotes && s.matches[m].phase.at < s.matches[m].expiresAt)
      && ((forall t | t in ts :: Durable(t)) ==> forall m, u | m in s.matches :: s.InMatch(u, m) <==> s.matches[m].Has(u))
  {
    RunKeeps(EMPTY, ts);
    var s := Run(EMPTY, ts);
    if BaseInv(s) {
      forall m, u | m in s.matches ensures s.InMatch(u, m) <==> s.matches[m].Has(u) { InvAt(s, u, m, (0, 0)); }
    }
    forall m | m in s.matches ensures m in s.issued && WellFormed(s.matches[m], s.issued[m]) { RecordAt(s, m); }
    forall u ensures !(u in s.queue && u in s.mapped) && (u in s.queue <==> u in s.prefs) { InvAt(s, u, 0, (0, 0)); }
  }

  /** Exactly the lapse of a key that a live match rests on breaks the invariant. */
  lemma OnlyLiveLapsesBreak(s: Keyspace, t: Step)
    requires BaseInv(s) && Legal(s, t)
    ensures BaseInv(Apply(s, t).0) <==> !(t.LapseMapping? && t.u in s.mapped) && !(t.LapseMatch? && t.m in s.matches)
  {
    if Durable(t) {
      StepKeeps(s, t);
    } else if t.LapseMapping? {
      if t.u in s.mapped {
        InvAt(s, t.u, s.mapped[t.u], (0, 0));
        assert !PairOk(Apply(s, t).0, s.mapped[t.u]);
      } else {
        assert Apply(s, t).0 == s by { assert s.mapped - {t.u} == s.mapped; }
      }
    } else if t.m in s.matches {
      InvAt(s, s.matches[t.m].a, t.m, (0, 0));
      assert !MappedOk(Apply(s, t).0, s.matches[t.m].a);
    } else {
      assert Apply(s, t).0 == s by { assert s.matches - {t.m} == s.matches; }
    }
  }

  lemma {:induction false} RunMore(s: Keyspace, ts: seq<Step>, t: Step)
    ensures Run(s, ts + [t]) == Apply(Run(s, ts), t).0
    ensures LegalRun(s, ts + [t]) <==> LegalRun(s, ts) && Legal(Run(s, ts), t)
    decreases |ts|
  {
    if ts == [] {
      assert ts + [t] == [t];
    } else {
      assert ts + [t] == [ts[0]] + (ts[1..] + [t]);
      RunMore(Apply(s, ts[0]).0, ts[1..], t);
    }
  }

  lemma More(ts: seq<Step>, t: Step) returns (more: seq<Step>)
    requires LegalRun(EMPTY, ts) && Legal(Run(EMPTY, ts), t)
    ensures more == ts + [t]
    ensures LegalRun(EMPTY, more) && Run(EMPTY, more) == Apply(Run(EMPTY, ts), t).0
  {
    more := ts + [t];
    RunMore(EMPTY, ts, t);
  }

  /** Users 1, 2 and 3 are present. */
  lemma ThreePresent() returns (ts: seq<Step>)
    ensures LegalRun(EMPTY, ts)
    ensures var s := Run(EMPTY, ts);
      && s == EMPTY.(presence := s.presence) && s.presence == map[1 := 101, 2 := 102, 3 := 103]
  {
    ts := [];
    assert Run(EMPTY, ts) == EMPTY && LegalRun(EMPTY, ts);
    hide Run, LegalRun;
    ts := More(ts, DoConnect(1, 101));
    ts := More(ts, DoConnect(2, 102));
    ts := More(ts, DoConnect(3, 103));
  }

  /** Users 1, 2 and 3 are queued. */
  lemma ThreeQueued() returns (ts: seq<Step>)
    ensures LegalRun(EMPTY, ts)
    ensures var s := Run(EMPTY, ts);
      && s.presence == map[1 := 101, 2 := 102, 3 := 103] && s.queue == map[1 := 0, 2 := 0, 3 := 0]
      && s.mapped == map[] && s.matches == map[] && s.issued == map[] && s.recent == {}
  {
    var p := Preferences("gaming", ["en"], []);
    hide Run, LegalRun, Claim, End;
    ts := ThreePresent();
    ts := More(ts, DoEnqueue(1, 101, p, 0));
    ts := More(ts, DoEnqueue(2, 102, p, 0));
    ts := More(ts, DoEnqueue(3, 103, p, 0));
  }

  /** Users 1 and 2 are in match 10; user 3 is queued. */
  lemma FirstMatch() returns (ts: seq<Step>)
    ensures LegalRun(EMPTY, ts)
    ensures var s := Run(EMPTY, ts);
      && s.presence == map[1 := 101, 2 := 102, 3 := 103] && s.mapped == map[1 := 10, 2 := 10] && s.queue == map[3 := 0]
      && s.matches == map[10 := Match(1, 2, Active, 0, ENCOUNTER_LENGTH, "gaming", [], {}, {}, map[], None)]
      && s.issued.Keys == {10} && s.recent == {(1, 2)}
  {
    hide Run, LegalRun, Connect, Heartbeat, Enqueue, LeaveQueue, CleanupQueued, Reconnect, Relay, End, EndForUser, Extend,
         ConnectVote, PublishConnection, Disconnect, Expire, GraceExpire;
    ts := ThreeQueued();
    ts := More(ts, DoClaim(1, 2, 101, 102, 10, "gaming", [], 0, false));
  }

  lemma FirstVote(s: Keyspace, u: UserId, socket: SocketId, m: MatchId, now: Millis)
    requires s.Acting(u, socket, m) && s.matches[m].phase.Active? && now < s.matches[m].expiresAt
    requires s.matches[m].extendVotes == {} && s.matches[m].Other(u) != u
    ensures Extend(s, u, socket, m, now) == (Put(s, m, s.matches[m].(extendVotes := {u})), 1)
  {
    assert s.matches[m].extendVotes + {u} == {u};
  }

  /** The first vote to extend it. */
  lemma HalfExtended() returns (ts: seq<Step>)
    ensures LegalRun(EMPTY, ts) && ts != [] && ts[|ts| - 1] == DoExtend(1, 101, 10, 1)
    ensures var s := Run(EMPTY, ts);
      && s.presence == map[1 := 101, 2 := 102, 3 := 103] && s.mapped == map[1 := 10, 2 := 10] && s.queue == map[3 := 0]
      && s.matches == map[10 := Match(1, 2, Active, 0, ENCOUNTER_LENGTH, "gaming", [], {1}, {}, map[], None)]
      && s.issued.Keys == {10} && s.recent == {(1, 2)}
  {
    hide Run, LegalRun, Connect, Heartbeat, Enqueue, LeaveQueue, CleanupQueued, Claim, Reconnect, Relay, End, EndForUser,
         ConnectVote, PublishConnection, Disconnect, Expire, GraceExpire;
    ts := FirstMatch();
    var r := Run(EMPTY, ts).matches[10];
    FirstVote(Run(EMPTY, ts), 1, 101, 10, 1);
    hide Extend;
    ts := More(ts, DoExtend(1, 101, 10, 1));
    assert Run(EMPTY, ts).matches == map[10 := r.(extendVotes := {1})];
  }

  const BOTH_EXTEND := [DoExtend(1, 101, 10, 1), DoExtend(2, 102, 10, 2)]

  lemma FullyExtended() returns (ts: seq<Step>)
    ensures LegalRun(EMPTY, ts) && |ts| >= 2 && ts[|ts| - 2..] == BOTH_EXTEND
    ensures var s := Run(EMPTY, ts);
      && s.presence == map[1 := 101, 2 := 102, 3 := 103] && s.mapped == map[1 := 10, 2 := 10] && s.queue == map[3 := 0]
      && s.matches.Keys == {10} && s.matches[10].a == 1 && s.matches[10].b == 2 && s.matches[10].phase == Extended(2)
      && s.issued.Keys == {10} && s.recent == {(1, 2)}
  {
    hide Run, LegalRun, Connect, Heartbeat, Enqueue, LeaveQueue, CleanupQueued, Claim, Reconnect, Relay, End, EndForUser,
         ConnectVote, PublishConnection, Disconnect, Expire, GraceExpire;
    ts := HalfExtended();
    var before := ts;
    ts := More(ts, DoExtend(2, 102, 10, 2));
    assert ts[|ts| - 2..] == [before[|before| - 1], DoExtend(2, 102, 10, 2)];
  }

  /** The server holding user 1's socket is gone, and its presence runs out. */
  lemma PresenceLapsed() returns (ts: seq<Step>)
    ensures LegalRun(EMPTY, ts) && |ts| >= 3 && ts[|ts| - 3..] == BOTH_EXTEND + [LapsePresence(1)]
    ensures var s := Run(EMPTY, ts);
      && s.presence == map[2 := 102, 3 := 103] && s.mapped == map[1 := 10, 2 := 10] && s.queue == map[3 := 0]
      && s.matches.Keys == {10} && s.matches[10].a == 1 && s.matches[10].b == 2 && s.matches[10].phase == Extended(2)
      && s.issued.Keys == {10} && s.recent == {(1, 2)}
  {
    hide Run, LegalRun, Connect, Heartbeat, Enqueue, LeaveQueue, CleanupQueued, Claim, Reconnect, Relay, End, EndForUser,
         Extend, ConnectVote, PublishConnection, Disconnect, Expire, GraceExpire;
    var before := FullyExtended();
    ts := More(before, LapsePresence(1));
    assert ts[|ts| - 3..] == before[|before| - 2..] + [LapsePresence(1)];
  }

  const LAPSES := [LapsePresence(1), LapseMapping(1)]

  /** And later its mapping. */
  lemma Lapsed() returns (ts: seq<Step>)
    ensures LegalRun(EMPTY, ts) && |ts| >= 4 && ts[|ts| - 4..] == BOTH_EXTEND + LAPSES
    ensures var s := Run(EMPTY, ts);
      && s.presence == map[2 := 102, 3 := 103] && s.mapped == map[2 := 10] && s.queue == map[3 := 0]
      && s.matches.Keys == {10} && s.matches[10].a == 1 && s.matches[10].b == 2
      && s.issued.Keys == {10} && s.recent == {(1, 2)}
  {
    hide Run, LegalRun, Connect, Heartbeat, Enqueue, LeaveQueue, CleanupQueued, Claim, Reconnect, Relay, End, EndForUser,
         Extend, ConnectVote, PublishConnection, Disconnect, Expire, GraceExpire;
    var before := PresenceLapsed();
    ts := More(before, LapseMapping(1));
    assert ts[|ts| - 4..] == before[|before| - 3..] + [LapseMapping(1)];
  }

  /** User 1 comes back with a new socket and queues. */
  lemma BackAgain() returns (ts: seq<Step>)
    ensures LegalRun(EMPTY, ts) && |ts| >= 5 && ts[|ts| - 5..] == BOTH_EXTEND + LAPSES + [DoConnect(1, 111)]
    ensures var s := Run(EMPTY, ts);
      && s.presence == map[1 := 111, 2 := 102, 3 := 103] && s.mapped == map[2 := 10] && s.queue == map[3 := 0]
      && s.matches.Keys == {10} && s.matches[10].a == 1 && s.matches[10].b == 2
      && s.issued.Keys == {10} && s.recent == {(1, 2)}
  {
    hide Run, LegalRun, Heartbeat, Enqueue, LeaveQueue, CleanupQueued, Claim, Reconnect, Relay, End, EndForUser, Extend,
         ConnectVote, PublishConnection, Disconnect, Expire, GraceExpire;
    var before := Lapsed();
    ts := More(before, DoConnect(1, 111));
    assert ts[|ts| - 5..] == before[|before| - 4..] + [DoConnect(1, 111)];
  }

  lemma EnqueueKeepsTheRest(s: Keyspace, u: UserId, socket: SocketId, p: Preferences, now: Millis)
    requires s.Present(u, socket) && u !in s.mapped
    ensures var e := Enqueue(s, u, socket, p, now).0;
      e == s.(queue := s.queue[u := now], prefs := e.prefs)
  {}

  const AGAIN := DoEnqueue(1, 111, Preferences("gaming", ["en"], []), 400_000)

  lemma QueuedAgain() returns (ts: seq<Step>)
    ensures LegalRun(EMPTY, ts) && |ts| >= 6 && ts[|ts| - 6..] == BOTH_EXTEND + LAPSES + [DoConnect(1, 111), AGAIN]
    ensures var s := Run(EMPTY, ts);
      && s.presence == map[1 := 111, 2 := 102, 3 := 103] && s.mapped == map[2 := 10] && s.queue == map[1 := 400_000, 3 := 0]
      && s.matches.Keys == {10} && s.matches[10].a == 1 && s.matches[10].b == 2
      && s.issued.Keys == {10} && s.recent == {(1, 2)}
  {
    hide Run, LegalRun, Connect, Heartbeat, Enqueue, LeaveQueue, CleanupQueued, Claim, Reconnect, Relay, End, EndForUser,
         Extend, ConnectVote, PublishConnection, Disconnect, Expire, GraceExpire;
    var before := BackAgain();
    var s := Run(EMPTY, before);
    EnqueueKeepsTheRest(s, 1, 111, Preferences("gaming", ["en"], []), 400_000);
    ts := More(before, AGAIN);
    assert ts[|ts| - 6..] == before[|before| - 5..] + [AGAIN];
  }

  const SECOND := DoClaim(1, 3, 111, 103, 11, "gaming", [], 400_000, false)

  /** User 1 is matched with user 3. */
  lemma SecondMatch() returns (ts: seq<Step>)
    ensures LegalRun(EMPTY, ts) && |ts| >= 7 && ts[|ts| - 7..] == BOTH_EXTEND + LAPSES + [DoConnect(1, 111), AGAIN, SECOND]
    ensures var s := Run(EMPTY, ts);
      && s.Acting(2, 102, 10) && s.matches[10].a == 1
      && s.Acting(1, 111, 11) && s.matches[11].a == 1
  {
    hide Run, LegalRun, Connect, Heartbeat, Enqueue, LeaveQueue, CleanupQueued, Reconnect, Relay, End, EndForUser, Extend,
         ConnectVote, PublishConnection, Disconnect, Expire, GraceExpire;
    var before := QueuedAgain();
    ts := More(before, SECOND);
    assert ts[|ts| - 7..] == before[|before| - 6..] + [SECOND];
  }

  /** With lapses the bijection is lost, in a run the keys' times to live allow: match 10 is
      extended, user 1's presence and mapping run out, user 1 returns with a new socket and is
      matched with user 3. Ending match 10 then deletes the mapping that points at match 11, so
      user 1 is still named in match 11, and present, but no longer mapped to it. */
  lemma LapsesBreakTheBijection() returns (ts: seq<Step>)
    ensures LegalRun(EMPTY, ts) && |ts| >= 8
    ensures ts[|ts| - 8..] == BOTH_EXTEND + LAPSES + [DoConnect(1, 111), AGAIN, SECOND, DoEnd(2, 102, 10, Left)]
    ensures var s := Run(EMPTY, ts);
      11 in s.matches && s.matches[11].a == 1 && 1 !in s.mapped && s.Present(1, 111)
  {
    hide Run, LegalRun, Connect, Heartbeat, Enqueue, LeaveQueue, CleanupQueued, Claim, Reconnect, Relay, EndForUser, Extend,
         ConnectVote, PublishConnection, Disconnect, Expire, GraceExpire;
    var before := SecondMatch();
    ts := More(before, DoEnd(2, 102, 10, Left));
    assert ts[|ts| - 8..] == before[|before| - 7..] + [DoEnd(2, 102, 10, Left)];
  }
}

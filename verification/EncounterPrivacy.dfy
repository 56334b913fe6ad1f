/** One-sided votes are private: until the peer casts the same vote, nobody can tell a run with
    the vote from the run without it. */
module EncounterPrivacy {
  import opened Basics
  import opened Encounter
  import opened Preferences

  datatype Vote = ForExtend | ForConnect

  function Votes(r: Match, vote: Vote): set<UserId> {
    if vote.ForExtend? then r.extendVotes else r.connectVotes
  }

  function Withdraw(r: Match, u: UserId, vote: Vote): Match {
    if vote.ForExtend? then r.(extendVotes := r.extendVotes - {u}) else r.(connectVotes := r.connectVotes - {u})
  }

  /** `t` casts this vote for `u` in match `m`. */
  predicate Casts(t: Step, u: UserId, m: MatchId, vote: Vote) {
    match vote
    case ForExtend => t.DoExtend? && t.u == u && t.m == m
    case ForConnect => t.DoConnectVote? && t.u == u && t.m == m
  }

  /** The secret: `u`'s vote in match `m`, whose other participant `v` has not cast it. */
  datatype Secret = Secret(m: MatchId, u: UserId, v: UserId, vote: Vote)

  predicate OneSided(s: Keyspace, x: Secret) {
    && x.m in s.matches && x.u != x.v
    && (s.matches[x.m].a, s.matches[x.m].b) in {(x.u, x.v), (x.v, x.u)}
    && x.v !in Votes(s.matches[x.m], x.vote)
  }

  /** `erased` is `s`, or `s` with a one-sided vote taken out. */
  predicate Hides(s: Keyspace, erased: Keyspace, x: Secret) {
    s == erased || (OneSided(s, x) && erased == Put(s, x.m, Withdraw(s.matches[x.m], x.u, x.vote)))
  }

  /** The two runs go on looking alike. */
  ghost predicate Alike(p: (Keyspace, int), q: (Keyspace, int), x: Secret) {
    p.1 == q.1 && p.0.published == q.0.published && Hides(p.0, q.0, x)
  }

  lemma PutTwice(s: Keyspace, m: MatchId, r: Match, n: MatchId, q: Match)
    ensures Put(Put(s, m, r), n, q) == if m == n then Put(s, n, q) else Put(Put(s, n, q), m, r)
  {
    if m == n {
      assert s.matches[m := r][m := q] == s.matches[m := q];
    } else {
      assert s.matches[m := r][n := q] == s.matches[n := q][m := r];
    }
  }

  /** Both runs rewrite record `m`; what they put there must itself look alike. */
  lemma PutAlike(s: Keyspace, z: Keyspace, x: Secret, m: MatchId, r: Match, q: Match)
    requires Hides(s, z, x) && s != z && m in s.matches
    requires if m == x.m then
               r == q || ((r.a, r.b) == (s.matches[m].a, s.matches[m].b) && x.v !in Votes(r, x.vote) && q == Withdraw(r, x.u, x.vote))
             else r == q
    ensures Hides(Put(s, m, r), Put(z, m, q), x)
  {
    var w := Withdraw(s.matches[x.m], x.u, x.vote);
    PutTwice(s, x.m, w, m, q);
    if m == x.m { PutTwice(s, m, r, m, q); }
  }

  /** Fields other than the records play no part. */
  lemma FrameAlike(s: Keyspace, z: Keyspace, x: Secret, e: Keyspace, f: Keyspace)
    requires Hides(s, z, x)
    requires e == s.(presence := e.presence, mapped := e.mapped, queue := e.queue, prefs := e.prefs, recent := e.recent,
                     deadlines := e.deadlines, graces := e.graces, published := e.published, issued := e.issued)
    requires f == e.(matches := z.matches)
    ensures Hides(e, f, x)
  {}

  /** The hidden vote shows in no other field. */
  lemma SameOtherwise(s: Keyspace, z: Keyspace, x: Secret)
    requires Hides(s, z, x)
    ensures z == s.(matches := z.matches) && z.matches.Keys == s.matches.Keys
    ensures forall m | m in s.matches ::
      z.matches[m] == s.matches[m].(extendVotes := z.matches[m].extendVotes, connectVotes := z.matches[m].connectVotes)
  {}

  lemma ReconnectReplies(s: Keyspace, z: Keyspace, x: Secret, w: UserId, socket: SocketId, m: MatchId, now: Millis)
    requires Hides(s, z, x)
    ensures Reconnect(s, w, socket, m, now).1 == Reconnect(z, w, socket, m, now).1
  {
    SameOtherwise(s, z, x);
    hide Hides;
  }

  lemma ReconnectAlike(s: Keyspace, z: Keyspace, x: Secret, w: UserId, socket: SocketId, m: MatchId, now: Millis)
    requires Hides(s, z, x)
    ensures Alike(Reconnect(s, w, socket, m, now), Reconnect(z, w, socket, m, now), x)
  {
    ReconnectReplies(s, z, x, w, socket, m, now);
    SameOtherwise(s, z, x);
    if s != z && Reconnect(s, w, socket, m, now).1 == 1 {
      var r := s.matches[m].(disconnected := s.matches[m].disconnected - {w});
      var q := z.matches[m].(disconnected := z.matches[m].disconnected - {w});
      PutAlike(s, z, x, m, r, q);
      hide Hides;
      FrameAlike(Put(s, m, r), Put(z, m, q), x, Reconnect(s, w, socket, m, now).0, Reconnect(z, w, socket, m, now).0);
    }
  }

  lemma DisconnectAlike(s: Keyspace, z: Keyspace, x: Secret, w: UserId, socket: SocketId, now: Millis)
    requires Hides(s, z, x)
    ensures Alike(Disconnect(s, w, socket, now), Disconnect(z, w, socket, now), x)
  {
    var e, f := Disconnect(s, w, socket, now).0, Disconnect(z, w, socket, now).0;
    SameOtherwise(s, z, x);
    if s != z && s.Present(w, socket) {
      if w in s.mapped && s.Member(w, s.mapped[w]) {
        var m := s.mapped[w];
        var r := s.matches[m].(disconnected := s.matches[m].disconnected[w := now + RECONNECT_GRACE]);
        var q := z.matches[m].(disconnected := z.matches[m].disconnected[w := now + RECONNECT_GRACE]);
        PutAlike(s, z, x, m, r, q);
        MarkedAlike(s, z, x, w, socket, now, r, q);
      } else {
        FrameAlike(s, z, x, e, f);
      }
    }
  }

  lemma MarkedAlike(s: Keyspace, z: Keyspace, x: Secret, w: UserId, socket: SocketId, now: Millis, r: Match, q: Match)
    requires s.Present(w, socket) && w in s.mapped && s.Member(w, s.mapped[w]) && z == s.(matches := z.matches)
    requires z.Member(w, s.mapped[w]) && z.matches[s.mapped[w]].Other(w) == s.matches[s.mapped[w]].Other(w)
    requires r == s.matches[s.mapped[w]].(disconnected := s.matches[s.mapped[w]].disconnected[w := now + RECONNECT_GRACE])
    requires q == z.matches[s.mapped[w]].(disconnected := z.matches[s.mapped[w]].disconnected[w := now + RECONNECT_GRACE])
    requires Hides(Put(s, s.mapped[w], r), Put(z, s.mapped[w], q), x)
    ensures Alike(Disconnect(s, w, socket, now), Disconnect(z, w, socket, now), x)
  {
    hide Hides;
    var m := s.mapped[w];
    FrameAlike(Put(s, m, r), Put(z, m, q), x, Disconnect(s, w, socket, now).0, Disconnect(z, w, socket, now).0);
  }

  /** The voter repeats the hidden vote. */
  lemma RepeatedExtendAlike(s: Keyspace, z: Keyspace, x: Secret, socket: SocketId, now: Millis)
    requires Hides(s, z, x) && s != z && x.vote.ForExtend?
    ensures Alike(Extend(s, x.u, socket, x.m, now), Extend(z, x.u, socket, x.m, now), x)
  {
    var r := s.matches[x.m];
    assert r.extendVotes - {x.u} + {x.u} == r.extendVotes + {x.u};
    assert r.Other(x.u) == x.v;
    PutTwice(s, x.m, Withdraw(r, x.u, x.vote), x.m, r.(extendVotes := r.extendVotes + {x.u}));
  }

  /** An Extend that completes a pair elsewhere, or in the same match while a Connect vote is hidden. */
  lemma MutualExtendAlike(s: Keyspace, z: Keyspace, x: Secret, w: UserId, socket: SocketId, m: MatchId, now: Millis)
    requires Hides(s, z, x) && s != z && !(x.vote.ForExtend? && m == x.m)
    requires s.Acting(w, socket, m) && s.matches[m].phase.Active? && now < s.matches[m].expiresAt
    requires s.matches[m].Other(w) in s.matches[m].extendVotes + {w}
    ensures Alike(Extend(s, w, socket, m, now), Extend(z, w, socket, m, now), x)
  {
    var e, f := Extend(s, w, socket, m, now), Extend(z, w, socket, m, now);
    var r := s.matches[m].(phase := Extended(now), extendVotes := s.matches[m].extendVotes + {w});
    var q := z.matches[m].(phase := Extended(now), extendVotes := z.matches[m].extendVotes + {w});
    assert e.0.matches[m] == r && f.0.matches[m] == q;
    PutAlike(s, z, x, m, r, q);
    FrameAlike(Put(s, m, r), Put(z, m, q), x, e.0, f.0);
  }

  lemma ExtendAlike(s: Keyspace, z: Keyspace, x: Secret, w: UserId, socket: SocketId, m: MatchId, now: Millis)
    requires Hides(s, z, x) && !(x.vote.ForExtend? && w == x.v && m == x.m)
    ensures Alike(Extend(s, w, socket, m, now), Extend(z, w, socket, m, now), x)
  {
    if s != z && s.Acting(w, socket, m) && s.matches[m].phase.Active? && now < s.matches[m].expiresAt {
      if x.vote.ForExtend? && m == x.m {
        RepeatedExtendAlike(s, z, x, socket, now);
      } else if s.matches[m].Other(w) in s.matches[m].extendVotes + {w} {
        MutualExtendAlike(s, z, x, w, socket, m, now);
      } else {
        var r := s.matches[m].(extendVotes := s.matches[m].extendVotes + {w});
        var q := z.matches[m].(extendVotes := z.matches[m].extendVotes + {w});
        PutAlike(s, z, x, m, r, q);
      }
    }
  }

  lemma ConnectVoteReplies(s: Keyspace, z: Keyspace, x: Secret, w: UserId, socket: SocketId, m: MatchId, now: Millis)
    requires Hides(s, z, x) && !(x.vote.ForConnect? && w == x.v && m == x.m)
    ensures ConnectVote(s, w, socket, m, now).1 == ConnectVote(z, w, socket, m, now).1
  {}

  lemma ConnectVoteAlike(s: Keyspace, z: Keyspace, x: Secret, w: UserId, socket: SocketId, m: MatchId, now: Millis)
    requires Hides(s, z, x) && !(x.vote.ForConnect? && w == x.v && m == x.m)
    ensures Alike(ConnectVote(s, w, socket, m, now), ConnectVote(z, w, socket, m, now), x)
  {
    ConnectVoteReplies(s, z, x, w, socket, m, now);
    SameOtherwise(s, z, x);
    if s != z && s.Acting(w, socket, m) && (s.matches[m].phase.Extended? || now < s.matches[m].expiresAt)
       && s.matches[m].connection.None? {
      var r := s.matches[m].(connectVotes := s.matches[m].connectVotes + {w});
      var q := z.matches[m].(connectVotes := z.matches[m].connectVotes + {w});
      if m == x.m && x.vote.ForConnect? {
        assert w == x.u && s.matches[m].Other(w) == x.v;
        assert s.matches[m].connectVotes - {w} + {w} == s.matches[m].connectVotes + {w};
      }
      PutAlike(s, z, x, m, r, q);
      hide Hides;
    }
  }

  lemma PublishReplies(s: Keyspace, z: Keyspace, x: Secret, m: MatchId, c: ConnectionId)
    requires Hides(s, z, x)
    ensures PublishConnection(s, m, c).1 == PublishConnection(z, m, c).1
    ensures PublishConnection(s, m, c).1 == 1 && s != z && m == x.m ==> x.vote.ForExtend?
  {}

  lemma PublishAlike(s: Keyspace, z: Keyspace, x: Secret, m: MatchId, c: ConnectionId)
    requires Hides(s, z, x)
    ensures Alike(PublishConnection(s, m, c), PublishConnection(z, m, c), x)
  {
    PublishReplies(s, z, x, m, c);
    var e, f := PublishConnection(s, m, c), PublishConnection(z, m, c);
    if s != z && e.1 == 1 {
      var r, q := e.0.matches[m], f.0.matches[m];
      PutAlike(s, z, x, m, r, q);
      FrameAlike(Put(s, m, r), Put(z, m, q), x, e.0, f.0);
      hide Hides;
    }
  }

  lemma ClaimAlike(s: Keyspace, z: Keyspace, x: Secret, t: Step)
    requires Hides(s, z, x) && t.DoClaim?
    ensures Alike(Claim(s, t.u, t.b, t.socket, t.socketB, t.m, t.intent, t.shared, t.now, t.allowRecent),
                  Claim(z, t.u, t.b, t.socket, t.socketB, t.m, t.intent, t.shared, t.now, t.allowRecent), x)
  {}

  lemma FinishAlike(s: Keyspace, z: Keyspace, x: Secret, m: MatchId, reason: Reason)
    requires Hides(s, z, x) && m in s.matches
    ensures m in z.matches
    ensures Alike((Finish(s, m, reason), 1), (Finish(z, m, reason), 1), x)
  {}

  lemma EndAlike(s: Keyspace, z: Keyspace, x: Secret, w: UserId, socket: SocketId, m: MatchId, reason: Reason)
    requires Hides(s, z, x)
    ensures Alike(End(s, w, socket, m, reason), End(z, w, socket, m, reason), x)
  {
    hide Finish, Hides;
    SameOtherwise(s, z, x);
    if m in s.matches { FinishAlike(s, z, x, m, reason); }
  }

  lemma EndForUserAlike(s: Keyspace, z: Keyspace, x: Secret, w: UserId, m: MatchId, reason: Reason)
    requires Hides(s, z, x)
    ensures Alike(EndForUser(s, w, m, reason), EndForUser(z, w, m, reason), x)
  {
    hide Finish, Hides;
    SameOtherwise(s, z, x);
    if m in s.matches { FinishAlike(s, z, x, m, reason); }
  }

  lemma ExpireAlike(s: Keyspace, z: Keyspace, x: Secret, m: MatchId, now: Millis)
    requires Hides(s, z, x)
    ensures Alike(Expire(s, m, now), Expire(z, m, now), x)
  {
    hide Finish, Hides;
    SameOtherwise(s, z, x);
    if m in s.matches { FinishAlike(s, z, x, m, Expired); }
    FrameAlike(s, z, x, s.(deadlines := s.deadlines - {m}), z.(deadlines := z.deadlines - {m}));
  }

  lemma GraceExpireAlike(s: Keyspace, z: Keyspace, x: Secret, m: MatchId, w: UserId, now: Millis)
    requires Hides(s, z, x)
    ensures Alike(GraceExpire(s, m, w, now), GraceExpire(z, m, w, now), x)
  {
    hide Finish, Hides;
    SameOtherwise(s, z, x);
    if m in s.matches { FinishAlike(s, z, x, m, PeerDisconnected); }
    FrameAlike(s, z, x, s.(graces := s.graces - {(m, w)}), z.(graces := z.graces - {(m, w)}));
  }

  lemma LapseMatchAlike(s: Keyspace, z: Keyspace, x: Secret, m: MatchId)
    requires Hides(s, z, x)
    ensures Alike(Apply(s, LapseMatch(m)), Apply(z, LapseMatch(m)), x)
  {
    if s != z {
      var w := Withdraw(s.matches[x.m], x.u, x.vote);
      if m == x.m { assert s.matches[m := w] - {m} == s.matches - {m}; }
      else { assert s.matches[x.m := w] - {m} == (s.matches - {m})[x.m := w]; }
    }
  }

  lemma EnqueueAlike(s: Keyspace, z: Keyspace, x: Secret, w: UserId, socket: SocketId, p: Preferences, now: Millis)
    requires Hides(s, z, x)
    ensures Alike(Enqueue(s, w, socket, p, now), Enqueue(z, w, socket, p, now), x)
  {
    hide Hides;
    SameOtherwise(s, z, x);
    if Enqueue(s, w, socket, p, now).1 == 1 {
      FrameAlike(s, z, x, Enqueue(s, w, socket, p, now).0, Enqueue(z, w, socket, p, now).0);
    }
  }

  lemma UnqueueAlike(s: Keyspace, z: Keyspace, x: Secret, w: UserId, socket: SocketId, seen: Queued)
    requires Hides(s, z, x)
    ensures Alike(LeaveQueue(s, w, socket), LeaveQueue(z, w, socket), x)
    ensures Alike(CleanupQueued(s, w, seen), CleanupQueued(z, w, seen), x)
  {
    hide Hides;
    SameOtherwise(s, z, x);
    FrameAlike(s, z, x, Unqueue(s, {w}), Unqueue(z, {w}));
  }

  lemma RelayAlike(s: Keyspace, z: Keyspace, x: Secret, w: UserId, socket: SocketId, m: MatchId, payload: string)
    requires Hides(s, z, x)
    ensures Alike(Relay(s, w, socket, m, payload), Relay(z, w, socket, m, payload), x)
  {
    hide Hides;
    SameOtherwise(s, z, x);
    FrameAlike(s, z, x, Relay(s, w, socket, m, payload).0, Relay(z, w, socket, m, payload).0);
  }

  lemma ConnectAlike(s: Keyspace, z: Keyspace, x: Secret, w: UserId, socket: SocketId)
    requires Hides(s, z, x)
    ensures Alike(Connect(s, w, socket), Connect(z, w, socket), x)
    ensures Alike(Heartbeat(s, w, socket), Heartbeat(z, w, socket), x)
  {
    SameOtherwise(s, z, x);
    hide Hides;
    FrameAlike(s, z, x, Connect(s, w, socket).0, Connect(z, w, socket).0);
  }

  lemma PresenceLapseAlike(s: Keyspace, z: Keyspace, x: Secret, w: UserId)
    requires Hides(s, z, x)
    ensures Alike((s.(presence := s.presence - {w}), 0), (z.(presence := z.presence - {w}), 0), x)
  {
    SameOtherwise(s, z, x);
    hide Hides;
    FrameAlike(s, z, x, s.(presence := s.presence - {w}), z.(presence := z.presence - {w}));
  }

  lemma RecentLapseAlike(s: Keyspace, z: Keyspace, x: Secret, pair: (UserId, UserId))
    requires Hides(s, z, x)
    ensures Alike((s.(recent := s.recent - {pair}), 0), (z.(recent := z.recent - {pair}), 0), x)
  {
    SameOtherwise(s, z, x);
    hide Hides;
    FrameAlike(s, z, x, s.(recent := s.recent - {pair}), z.(recent := z.recent - {pair}));
  }

  lemma MappingLapseAlike(s: Keyspace, z: Keyspace, x: Secret, w: UserId)
    requires Hides(s, z, x)
    ensures Alike((s.(mapped := s.mapped - {w}), 0), (z.(mapped := z.mapped - {w}), 0), x)
  {
    SameOtherwise(s, z, x);
    hide Hides;
    FrameAlike(s, z, x, s.(mapped := s.mapped - {w}), z.(mapped := z.mapped - {w}));
  }

  lemma StepAlike(s: Keyspace, z: Keyspace, x: Secret, t: Step)
    requires Hides(s, z, x) && !Casts(t, x.v, x.m, x.vote)
    ensures Alike(Apply(s, t), Apply(z, t), x)
  {
    hide Alike, Hides, Connect, Heartbeat, Enqueue, LeaveQueue, CleanupQueued, Claim, Reconnect, Relay, End, EndForUser, Extend,
         ConnectVote, PublishConnection, Disconnect, Expire, GraceExpire;
    match t
    case DoClaim(_, _, _, _, _, _, _, _, _) => ClaimAlike(s, z, x, t);
    case DoReconnect(w, socket, m, now) => ReconnectAlike(s, z, x, w, socket, m, now);
    case DoExtend(w, socket, m, now) => ExtendAlike(s, z, x, w, socket, m, now);
    case DoConnectVote(w, socket, m, now) => ConnectVoteAlike(s, z, x, w, socket, m, now);
    case DoPublishConnection(m, c) => PublishAlike(s, z, x, m, c);
    case DoDisconnect(w, socket, now) => DisconnectAlike(s, z, x, w, socket, now);
    case DoEnd(w, socket, m, reason) => EndAlike(s, z, x, w, socket, m, reason);
    case DoEndForUser(w, m, reason) => EndForUserAlike(s, z, x, w, m, reason);
    case DoExpire(m, now) => ExpireAlike(s, z, x, m, now);
    case DoGraceExpire(m, w, now) => GraceExpireAlike(s, z, x, m, w, now);
    case DoRelay(w, socket, m, payload) => RelayAlike(s, z, x, w, socket, m, payload);
    case LapseMatch(m) => LapseMatchAlike(s, z, x, m);
    case DoEnqueue(w, socket, p, now) => EnqueueAlike(s, z, x, w, socket, p, now);
    case DoLeaveQueue(w, socket) => UnqueueAlike(s, z, x, w, socket, Queued(0, Preferences("", [], [])));
    case DoCleanup(w, seen) => UnqueueAlike(s, z, x, w, 0, seen);
    case DoConnect(w, socket) => ConnectAlike(s, z, x, w, socket);
    case DoHeartbeat(w, socket) => ConnectAlike(s, z, x, w, socket);
    case LapsePresence(w) => PresenceLapseAlike(s, z, x, w);
    case LapseRecent(pair) => RecentLapseAlike(s, z, x, pair);
    case LapseMapping(w) => MappingLapseAlike(s, z, x, w);
  }

  /** The replies to a run, in order. */
  function Replies(s: Keyspace, ts: seq<Step>): seq<int>
    decreases |ts|
  {
    if ts == [] then [] else [Apply(s, ts[0]).1] + Replies(Apply(s, ts[0]).0, ts[1..])
  }

  lemma {:induction false} RunAlike(s: Keyspace, z: Keyspace, x: Secret, ts: seq<Step>)
    requires Hides(s, z, x) && forall t | t in ts :: !Casts(t, x.v, x.m, x.vote)
    ensures Replies(s, ts) == Replies(z, ts)
    ensures Run(s, ts).published == Run(z, ts).published || ts == []
    ensures forall w :: CurrentMatch(Run(s, ts), w) == CurrentMatch(Run(z, ts), w)
    decreases |ts|
  {
    if ts != [] {
      assert ts[0] in ts;
      StepAlike(s, z, x, ts[0]);
      RunAlike(Apply(s, ts[0]).0, Apply(z, ts[0]).0, x, ts[1..]);
    }
  }

  /** Casting the vote changes the keyspace by that vote and nothing else. */
  lemma CastHides(s: Keyspace, cast: Step, x: Secret)
    requires OneSided(s, x) && Casts(cast, x.u, x.m, x.vote)
    ensures Hides(Apply(s, cast).0, s, x) && Apply(s, cast).0.published == s.published
  {
    hide Connect, Enqueue, LeaveQueue, CleanupQueued, Claim, Reconnect, Relay, End, EndForUser, PublishConnection,
         Disconnect, Expire, GraceExpire;
    var voted := Apply(s, cast).0;
    var r := s.matches[x.m];
    assert s.matches[x.m := r] == s.matches;
    if x.u in Votes(r, x.vote) {
      assert Votes(r, x.vote) + {x.u} == Votes(r, x.vote);
    } else if voted != s {
      assert Votes(r, x.vote) + {x.u} - {x.u} == Votes(r, x.vote);
      PutTwice(s, x.m, voted.matches[x.m], x.m, r);
    }
  }

  /** Privacy of one-sided votes, for every state and every continuation in which the peer does
      not cast the same vote: with the vote cast or not, every reply to every step, every event
      published to anybody and every read of a current match are the same. */
  lemma OneSidedVoteIsPrivate(s: Keyspace, cast: Step, x: Secret, ts: seq<Step>)
    requires OneSided(s, x) && Casts(cast, x.u, x.m, x.vote)
    requires forall t | t in ts :: !Casts(t, x.v, x.m, x.vote)
    ensures var voted := Apply(s, cast).0;
      && Replies(voted, ts) == Replies(s, ts)
      && Run(voted, ts).published == Run(s, ts).published
      && (forall w :: CurrentMatch(Run(voted, ts), w) == CurrentMatch(Run(s, ts), w))
  {
    hide Apply, Hides;
    var voted := Apply(s, cast).0;
    CastHides(s, cast, x);
    RunAlike(voted, s, x, ts);
  }
}

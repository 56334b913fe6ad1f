/** A reconnecting user fences off every older socket, in the style of a fencing token: whatever
    an older socket still sends has no effect on the keyspace, the log, or anybody's replies. */
module EncounterFencing {
  import opened Basics
  import opened Encounter

  /** The newest socket that announced itself for `u`. */
  function Newest(history: seq<Step>, u: UserId): Option<SocketId> {
    if history == [] then None
    else
      var last := history[|history| - 1];
      if last.DoConnect? && last.u == u then Some(last.socket) else Newest(history[..|history| - 1], u)
  }

  /** The steps a socket takes on behalf of its user. */
  predicate FromSocket(t: Step) {
    t.DoHeartbeat? || t.DoEnqueue? || t.DoLeaveQueue? || t.DoClaim? || t.DoReconnect? || t.DoRelay? || t.DoEnd?
    || t.DoExtend? || t.DoConnectVote? || t.DoDisconnect?
  }

  /** Sent by a socket that is not its user's newest, or claiming a candidate at such a socket. */
  predicate Stale(history: seq<Step>, t: Step) {
    || (FromSocket(t) && Newest(history, t.u) != Some(t.socket))
    || (t.DoClaim? && Newest(history, t.b) != Some(t.socketB))
  }

  function Erase(history: seq<Step>, ts: seq<Step>): seq<Step>
    decreases |ts|
  {
    if ts == [] then []
    else (if Stale(history, ts[0]) then [] else [ts[0]]) + Erase(history + [ts[0]], ts[1..])
  }

  /** Presence names nobody but the newest socket. */
  ghost predicate PresenceIsNewest(s: Keyspace, history: seq<Step>) {
    forall u | u in s.presence :: Newest(history, u) == Some(s.presence[u])
  }

  lemma StaleIsIgnored(s: Keyspace, history: seq<Step>, t: Step)
    requires PresenceIsNewest(s, history) && Stale(history, t)
    ensures Apply(s, t) == (s, 0)
  {
    assert FromSocket(t) && Newest(history, t.u) != Some(t.socket) ==> !s.Present(t.u, t.socket);
    assert t.DoClaim? && Newest(history, t.b) != Some(t.socketB) ==> !s.Present(t.b, t.socketB);
  }

  lemma ExtendKeepsPresence(s: Keyspace, u: UserId, socket: SocketId, m: MatchId, now: Millis)
    ensures Extend(s, u, socket, m, now).0.presence == s.presence
  {}

  lemma VoteKeepsPresence(s: Keyspace, u: UserId, socket: SocketId, m: MatchId, now: Millis)
    ensures ConnectVote(s, u, socket, m, now).0.presence == s.presence
  {}

  lemma ReturnKeepsPresence(s: Keyspace, u: UserId, socket: SocketId, m: MatchId, now: Millis)
    ensures Reconnect(s, u, socket, m, now).0.presence == s.presence
  {}

  lemma PublishKeepsPresence(s: Keyspace, m: MatchId, c: ConnectionId)
    ensures PublishConnection(s, m, c).0.presence == s.presence
  {}

  lemma RewritesKeepPresence(s: Keyspace, t: Step)
    requires Rewrites(t) && !t.DoDisconnect?
    ensures Apply(s, t).0.presence == s.presence
  {
    hide Connect, Heartbeat, Enqueue, LeaveQueue, CleanupQueued, Claim, Relay, Disconnect, End, EndForUser, Expire, GraceExpire,
         Extend, ConnectVote, Reconnect, PublishConnection;
    match t
    case DoReconnect(u, socket, m, now) => ReturnKeepsPresence(s, u, socket, m, now);
    case DoExtend(u, socket, m, now) => ExtendKeepsPresence(s, u, socket, m, now);
    case DoConnectVote(u, socket, m, now) => VoteKeepsPresence(s, u, socket, m, now);
    case DoPublishConnection(m, c) => PublishKeepsPresence(s, m, c);
  }

  lemma FinishKeepsPresence(s: Keyspace, m: MatchId)
    requires m in s.matches
    ensures forall reason :: Finish(s, m, reason).presence == s.presence
  {}

  lemma EndingsKeepPresence(s: Keyspace, t: Step)
    requires Ends(t)
    ensures Apply(s, t).0.presence == s.presence
  {
    hide Apply, Finish;
    EndOutcome(s, t);
    if t.m in s.matches { FinishKeepsPresence(s, t.m); }
  }

  lemma DisconnectPresence(s: Keyspace, u: UserId, socket: SocketId, now: Millis)
    ensures Disconnect(s, u, socket, now).0.presence == if s.Present(u, socket) then s.presence - {u} else s.presence
  {}

  lemma PresenceAfter(s: Keyspace, t: Step)
    ensures Apply(s, t).0.presence ==
            if t.DoConnect? then s.presence[t.u := t.socket]
            else if t.LapsePresence? || (t.DoDisconnect? && s.Present(t.u, t.socket)) then s.presence - {t.u}
            else s.presence
  {
    if Rewrites(t) && !t.DoDisconnect? { RewritesKeepPresence(s, t); }
    if Ends(t) { EndingsKeepPresence(s, t); }
    if t.DoDisconnect? { DisconnectPresence(s, t.u, t.socket, t.now); }
    hide End, EndForUser, Expire, GraceExpire, Extend, PublishConnection, Reconnect, ConnectVote, Disconnect;
  }

  lemma PresenceStaysNewest(s: Keyspace, history: seq<Step>, t: Step)
    requires PresenceIsNewest(s, history)
    ensures PresenceIsNewest(Apply(s, t).0, history + [t])
  {
    hide Apply;
    PresenceAfter(s, t);
    assert (history + [t])[..|history|] == history;
  }

  lemma {:induction false} ErasedRun(s: Keyspace, history: seq<Step>, ts: seq<Step>)
    requires PresenceIsNewest(s, history)
    ensures Run(s, Erase(history, ts)) == Run(s, ts)
    decreases |ts|
  {
    if ts != [] {
      var t := ts[0];
      var rest := Erase(history + [t], ts[1..]);
      hide Apply;
      PresenceStaysNewest(s, history, t);
      if Stale(history, t) {
        StaleIsIgnored(s, history, t);
        ErasedRun(s, history + [t], ts[1..]);
        assert Erase(history, ts) == rest;
      } else {
        ErasedRun(Apply(s, t).0, history + [t], ts[1..]);
        assert Erase(history, ts) == [t] + rest && ([t] + rest)[1..] == rest;
      }
    }
  }

  /** Fencing over whole runs: from the empty keyspace, erasing every step of every superseded
      socket leaves the final keyspace, the event log included, unchanged. */
  lemma SupersededSocketsHaveNoEffect(ts: seq<Step>)
    ensures Run(EMPTY, Erase([], ts)) == Run(EMPTY, ts)
  {
    ErasedRun(EMPTY, [], ts);
  }
}

/** The queue from its users' side: who is put into a match, who joins the queue, and why anybody
    leaves it. */
module EncounterQueue {
  import opened Basics
  import opened Encounter
  import opened EncounterInvariants
  import opened Preferences

  // ---- only a claim makes a match ----

  /** No match is new. */
  predicate NothingNew(s: Keyspace, e: Keyspace) { e.issued == s.issued && e.matches.Keys <= s.matches.Keys }

  lemma DisconnectIssuesNothing(s: Keyspace, u: UserId, socket: SocketId, now: Millis)
    ensures NothingNew(s, Disconnect(s, u, socket, now).0)
  {}

  lemma ReturnIssuesNothing(s: Keyspace, u: UserId, socket: SocketId, m: MatchId, now: Millis)
    ensures NothingNew(s, Reconnect(s, u, socket, m, now).0)
  {}

  lemma VoteIssuesNothing(s: Keyspace, u: UserId, socket: SocketId, m: MatchId, now: Millis)
    ensures NothingNew(s, ConnectVote(s, u, socket, m, now).0)
  {}

  lemma ExtendIssuesNothing(s: Keyspace, u: UserId, socket: SocketId, m: MatchId, now: Millis)
    ensures NothingNew(s, Extend(s, u, socket, m, now).0)
  {}

  lemma PublishIssuesNothing(s: Keyspace, m: MatchId, c: ConnectionId)
    ensures NothingNew(s, PublishConnection(s, m, c).0)
  {}

  lemma RewritesIssueNothing(s: Keyspace, t: Step)
    requires Rewrites(t)
    ensures NothingNew(s, Apply(s, t).0)
  {
    hide NothingNew, Connect, Enqueue, LeaveQueue, CleanupQueued, Claim, Relay, End, EndForUser, Expire, GraceExpire,
         Reconnect, ConnectVote, Disconnect, Extend, PublishConnection;
    match t
    case DoExtend(u, socket, m, now) => ExtendIssuesNothing(s, u, socket, m, now);
    case DoPublishConnection(m, c) => PublishIssuesNothing(s, m, c);
    case DoReconnect(u, socket, m, now) => ReturnIssuesNothing(s, u, socket, m, now);
    case DoConnectVote(u, socket, m, now) => VoteIssuesNothing(s, u, socket, m, now);
    case DoDisconnect(u, socket, now) => DisconnectIssuesNothing(s, u, socket, now);
  }

  lemma FinishIssuesNothing(s: Keyspace, m: MatchId)
    requires m in s.matches
    ensures forall reason :: NothingNew(s, Finish(s, m, reason))
  {}

  lemma EndsIssueNothing(s: Keyspace, t: Step)
    requires Ends(t)
    ensures NothingNew(s, Apply(s, t).0)
  {
    hide Apply, Finish;
    EndOutcome(s, t);
    if t.m in s.matches { FinishIssuesNothing(s, t.m); }
  }

  lemma OthersIssueNothing(s: Keyspace, t: Step)
    requires !t.DoClaim?
    ensures NothingNew(s, Apply(s, t).0)
  {
    hide End, EndForUser, Expire, GraceExpire, Extend, PublishConnection, Reconnect, ConnectVote, Disconnect, Claim;
    if Rewrites(t) { RewritesIssueNothing(s, t); }
    if Ends(t) { EndsIssueNothing(s, t); }
  }

  // ---- who is put into a match ----

  /** Waiting in the queue, in no match, and still at this socket. */
  predicate Waits(s: Keyspace, u: UserId, socket: SocketId) {
    u in s.queue && u !in s.mapped && u in s.presence && s.presence[u] == socket
  }

  /** A claim that the state allows: both wait, and they may meet again if they have met lately. */
  predicate MayMeet(s: Keyspace, t: Step)
    requires t.DoClaim?
  {
    && Waits(s, t.u, t.socket) && Waits(s, t.b, t.socketB)
    && ((t.u, t.b) in s.recent || (t.b, t.u) in s.recent ==> t.allowRecent)
  }

  /** Recent pairs are stored low identifier first. */
  ghost predicate RecentOk(s: Keyspace) { forall p | p in s.recent :: p.0 <= p.1 }

  /** Both are in this fresh match of a minute, and out of the queue. */
  predicate Together(e: Keyspace, t: Step)
    requires t.DoClaim?
  {
    && t.m in e.matches
    && e.matches[t.m] == Match(t.u, t.b, Active, t.now, t.now + 60_000, t.intent, t.shared, {}, {}, map[], None)
    && t.u in e.mapped && e.mapped[t.u] == t.m && t.b in e.mapped && e.mapped[t.b] == t.m
    && t.u !in e.queue && t.b !in e.queue && t.u !in e.prefs && t.b !in e.prefs
    && ((t.u, t.b) in e.recent || (t.b, t.u) in e.recent)
  }

  lemma ClaimBrings(s: Keyspace, t: Step)
    requires t.DoClaim? && RecentOk(s) && t.m !in s.issued && t.m !in s.matches
    ensures var (e, reply) := Apply(s, t);
      if MayMeet(s, t) then reply == 1 && Together(e, t) && e.matches.Keys == s.matches.Keys + {t.m}
      else reply == 0 && e == s
  {
    hide Connect, Heartbeat, Enqueue, LeaveQueue, CleanupQueued, Reconnect, Relay, Extend, ConnectVote, PublishConnection,
         Disconnect, End, EndForUser, Expire, GraceExpire;
  }

  /** Nobody is put into a match who is not waiting for one, and nobody meets a recent partner
      against the claim's word; and whoever is waiting is put into the match that claims them. */
  lemma MatchedExactlyWhenWaiting(s: Keyspace, t: Step, m: MatchId)
    requires LapseInv(s) && RecentOk(s) && Legal(s, t) && m !in s.matches
    ensures var (e, reply) := Apply(s, t);
      m in e.matches <==> t.DoClaim? && t.m == m && MayMeet(s, t)
    ensures var (e, reply) := Apply(s, t);
      m in e.matches ==> reply == 1 && t.u != t.b && Together(e, t)
    ensures t.DoClaim? ==> Apply(s, t).1 == if MayMeet(s, t) then 1 else 0
  {
    hide Apply, LapseInv, RecentOk, Together, MayMeet;
    if t.DoClaim? {
      if t.m in s.matches { RecordAt(s, t.m); }
      ClaimBrings(s, t);
    } else {
      OthersIssueNothing(s, t);
    }
  }

  // ---- who is in the queue ----

  predicate SameQueue(s: Keyspace, e: Keyspace) {
    e.queue == s.queue && e.prefs == s.prefs && e.recent <= s.recent
  }

  lemma FinishKeepsQueue(s: Keyspace, m: MatchId)
    requires m in s.matches
    ensures forall reason :: SameQueue(s, Finish(s, m, reason))
  {}

  /** The steps that can move somebody in or out of the queue. */
  predicate MovesQueue(t: Step) { t.DoEnqueue? || t.DoLeaveQueue? || t.DoCleanup? || t.DoClaim? || t.DoDisconnect? }

  lemma ReturnKeepsQueue(s: Keyspace, u: UserId, socket: SocketId, m: MatchId, now: Millis)
    ensures SameQueue(s, Reconnect(s, u, socket, m, now).0)
  {}

  lemma VoteKeepsQueue(s: Keyspace, u: UserId, socket: SocketId, m: MatchId, now: Millis)
    ensures SameQueue(s, ConnectVote(s, u, socket, m, now).0)
  {}

  lemma ExtendKeepsQueue(s: Keyspace, u: UserId, socket: SocketId, m: MatchId, now: Millis)
    ensures SameQueue(s, Extend(s, u, socket, m, now).0)
  {}

  lemma PublishKeepsQueue(s: Keyspace, m: MatchId, c: ConnectionId)
    ensures SameQueue(s, PublishConnection(s, m, c).0)
  {}

  lemma OthersKeepQueue(s: Keyspace, t: Step)
    requires !MovesQueue(t)
    ensures SameQueue(s, Apply(s, t).0)
  {
    hide End, EndForUser, Expire, GraceExpire, Extend, PublishConnection, Reconnect, ConnectVote, Claim, Enqueue, LeaveQueue,
         CleanupQueued, Disconnect, Finish;
    if Ends(t) {
      EndOutcome(s, t);
      if t.m in s.matches { FinishKeepsQueue(s, t.m); }
    } else if Rewrites(t) {
      match t
      case DoExtend(u, socket, m, now) => ExtendKeepsQueue(s, u, socket, m, now);
      case DoPublishConnection(m, c) => PublishKeepsQueue(s, m, c);
      case DoReconnect(u, socket, m, now) => ReturnKeepsQueue(s, u, socket, m, now);
      case DoConnectVote(u, socket, m, now) => VoteKeepsQueue(s, u, socket, m, now);
    }
  }

  /** `u` asks to queue, from where `u` is present and outside any match. */
  predicate Joins(s: Keyspace, t: Step, u: UserId) {
    t.DoEnqueue? && t.u == u && u in s.presence && s.presence[u] == t.socket && u !in s.mapped
  }

  /** `u` leaves by own wish or by closing the socket. */
  predicate Departs(s: Keyspace, t: Step, u: UserId) {
    (t.DoLeaveQueue? || t.DoDisconnect?) && t.u == u && u in s.presence && s.presence[u] == t.socket
  }

  /** The entry of `u` is cleaned up: it is the one that was seen, and its socket is gone. */
  predicate Swept(s: Keyspace, t: Step, u: UserId) {
    && t.DoCleanup? && t.u == u && u in s.prefs && s.prefs[u] == t.seen
    && !(u in s.presence && s.presence[u] == s.prefs[u].socket)
  }

  /** `u` is put into a match. */
  predicate Taken(s: Keyspace, t: Step, u: UserId) { t.DoClaim? && (t.u == u || t.b == u) && MayMeet(s, t) }

  predicate SameEntry(s: Keyspace, e: Keyspace, u: UserId) {
    && (u in e.queue <==> u in s.queue) && (u in s.queue && u in e.queue ==> e.queue[u] == s.queue[u])
    && (u in e.prefs <==> u in s.prefs) && (u in s.prefs && u in e.prefs ==> e.prefs[u] == s.prefs[u])
  }

  lemma DisconnectMovesQueue(s: Keyspace, w: UserId, socket: SocketId, now: Millis)
    ensures var (e, reply) := Disconnect(s, w, socket, now);
      && e.recent == s.recent
      && if w in s.presence && s.presence[w] == socket then e.queue == s.queue - {w} && e.prefs == s.prefs - {w} && reply == 1
         else e == s && reply == 0
  {}

  /** What a step does to the place of `u`. */
  ghost predicate EntryMoves(s: Keyspace, t: Step, u: UserId, after: (Keyspace, int)) {
    if Joins(s, t, u) then
      after.1 == 1 && u in after.0.queue && after.0.queue[u] == t.now
      && u in after.0.prefs && after.0.prefs[u] == Queued(t.socket, t.prefs)
    else if Departs(s, t, u) || Swept(s, t, u) || Taken(s, t, u) then after.1 == 1 && u !in after.0.queue && u !in after.0.prefs
    else SameEntry(s, after.0, u)
  }

  lemma EnqueueMoves(s: Keyspace, t: Step, u: UserId)
    requires t.DoEnqueue?
    ensures var after := Enqueue(s, t.u, t.socket, t.prefs, t.now); EntryMoves(s, t, u, after) && after.0.recent == s.recent
  {}

  lemma LeaveMoves(s: Keyspace, t: Step, u: UserId)
    requires t.DoLeaveQueue?
    ensures var after := LeaveQueue(s, t.u, t.socket); EntryMoves(s, t, u, after) && after.0.recent == s.recent
  {}

  lemma CleanupMoves(s: Keyspace, t: Step, u: UserId)
    requires t.DoCleanup?
    ensures var after := CleanupQueued(s, t.u, t.seen); EntryMoves(s, t, u, after) && after.0.recent == s.recent
  {}

  lemma DisconnectMoves(s: Keyspace, t: Step, u: UserId)
    requires t.DoDisconnect?
    ensures var after := Disconnect(s, t.u, t.socket, t.now); EntryMoves(s, t, u, after) && after.0.recent == s.recent
  {
    DisconnectMovesQueue(s, t.u, t.socket, t.now);
    hide Disconnect;
  }

  lemma ClaimMovesQueue(s: Keyspace, t: Step)
    requires t.DoClaim? && RecentOk(s)
    ensures var (e, reply) := Claim(s, t.u, t.b, t.socket, t.socketB, t.m, t.intent, t.shared, t.now, t.allowRecent);
      if MayMeet(s, t) then
        reply == 1 && e.queue == s.queue - {t.u, t.b} && e.prefs == s.prefs - {t.u, t.b} && e.recent == s.recent + {Pair(t.u, t.b)}
      else reply == 0 && e == s
  {}

  lemma ClaimMoves(s: Keyspace, t: Step, u: UserId)
    requires t.DoClaim? && RecentOk(s)
    ensures var after := Claim(s, t.u, t.b, t.socket, t.socketB, t.m, t.intent, t.shared, t.now, t.allowRecent);
      EntryMoves(s, t, u, after) && RecentOk(after.0)
  {
    ClaimMovesQueue(s, t);
    hide Claim, MayMeet;
  }

  /** Whoever wants to queue is queued with what was asked for, nobody else is; and an entry goes
      exactly when its user leaves, is matched, or is found gone. */
  lemma EntryChangesExactly(s: Keyspace, t: Step, u: UserId)
    requires RecentOk(s)
    ensures EntryMoves(s, t, u, Apply(s, t))
    ensures RecentOk(Apply(s, t).0)
  {
    hide EntryMoves, Connect, Heartbeat, Enqueue, LeaveQueue, CleanupQueued, Claim, Reconnect, Relay, Extend, ConnectVote,
         PublishConnection, Disconnect, End, EndForUser, Expire, GraceExpire;
    match t
    case DoEnqueue(_, _, _, _) => EnqueueMoves(s, t, u);
    case DoLeaveQueue(_, _) => LeaveMoves(s, t, u);
    case DoCleanup(_, _) => CleanupMoves(s, t, u);
    case DoDisconnect(_, _, _) => DisconnectMoves(s, t, u);
    case DoClaim(_, _, _, _, _, _, _, _, _) => ClaimMoves(s, t, u);
    case _ => OthersKeepEntry(s, t, u);
  }

  lemma OthersKeepEntry(s: Keyspace, t: Step, u: UserId)
    requires RecentOk(s) && !MovesQueue(t)
    ensures EntryMoves(s, t, u, Apply(s, t)) && RecentOk(Apply(s, t).0)
  {
    hide Apply;
    OthersKeepQueue(s, t);
  }

  // ---- over runs ----

  /** At some point of the run `u` gets into the queue. */
  predicate Queues(s: Keyspace, ts: seq<Step>, u: UserId)
    decreases |ts|
  {
    ts != [] && (Joins(s, ts[0], u) || Queues(Apply(s, ts[0]).0, ts[1..], u))
  }

  predicate Names(e: Keyspace, m: MatchId, u: UserId) {
    m in e.issued && (e.issued[m].0 == u || e.issued[m].1 == u)
  }

  lemma IssuedExactlyByClaims(s: Keyspace, t: Step)
    requires LapseInv(s) && RecentOk(s) && Legal(s, t)
    ensures var e := Apply(s, t).0;
      e.issued == if t.DoClaim? && MayMeet(s, t) then s.issued[t.m := (t.u, t.b)] else s.issued
  {
    hide LapseInv;
    if t.DoClaim? {
      if t.m in s.matches { RecordAt(s, t.m); }
      ClaimBrings(s, t);
      hide Connect, Heartbeat, Enqueue, LeaveQueue, CleanupQueued, Reconnect, Relay, Extend, ConnectVote, PublishConnection,
           Disconnect, End, EndForUser, Expire, GraceExpire;
    } else {
      hide Apply;
      OthersIssueNothing(s, t);
    }
  }

  /** Who is not in the queue and does not join it is named in no new match. */
  lemma {:induction false} NotMatchedOutsideQueue(s: Keyspace, ts: seq<Step>, u: UserId, m: MatchId)
    requires LapseInv(s) && RecentOk(s) && LegalRun(s, ts) && u !in s.queue && !Queues(s, ts, u) && m !in s.issued
    ensures u !in Run(s, ts).queue && !Names(Run(s, ts), m, u)
    decreases |ts|
  {
    if ts != [] {
      hide Apply, LapseInv, RecentOk, Joins, Departs, Swept;
      var e := Apply(s, ts[0]).0;
      StepKeeps(s, ts[0]);
      EntryChangesExactly(s, ts[0], u);
      IssuedExactlyByClaims(s, ts[0]);
      if m in e.issued {
        StaysNamed(e, ts[1..], m, u);
        NotQueuedOutside(e, ts[1..], u);
      } else {
        NotMatchedOutsideQueue(e, ts[1..], u, m);
      }
    }
  }

  lemma {:induction false} StaysNamed(s: Keyspace, ts: seq<Step>, m: MatchId, u: UserId)
    requires LapseInv(s) && RecentOk(s) && LegalRun(s, ts) && m in s.issued
    ensures Names(Run(s, ts), m, u) <==> Names(s, m, u)
    decreases |ts|
  {
    if ts != [] {
      hide Apply, LapseInv, RecentOk;
      StepKeeps(s, ts[0]);
      EntryChangesExactly(s, ts[0], u);
      IssuedExactlyByClaims(s, ts[0]);
      StaysNamed(Apply(s, ts[0]).0, ts[1..], m, u);
    }
  }

  lemma {:induction false} NotQueuedOutside(s: Keyspace, ts: seq<Step>, u: UserId)
    requires RecentOk(s) && u !in s.queue && !Queues(s, ts, u)
    ensures u !in Run(s, ts).queue
    decreases |ts|
  {
    if ts != [] {
      hide Apply, RecentOk, Joins, Departs, Swept, Taken;
      EntryChangesExactly(s, ts[0], u);
      NotQueuedOutside(Apply(s, ts[0]).0, ts[1..], u);
    }
  }

  /** After leaving the queue, or closing the socket, nobody is matched with anybody until they ask
      to queue again; and both requests are granted to the socket at which the user is. */
  lemma LeaversAreNotMatched(s: Keyspace, t: Step, ts: seq<Step>, u: UserId, m: MatchId)
    requires LapseInv(s) && RecentOk(s) && Legal(s, t) && LegalRun(Apply(s, t).0, ts) && m !in s.issued
    requires (t.DoLeaveQueue? || t.DoDisconnect?) && t.u == u && u in s.presence && s.presence[u] == t.socket
    requires !Queues(Apply(s, t).0, ts, u)
    ensures Apply(s, t).1 == 1
    ensures u !in Run(Apply(s, t).0, ts).queue && !Names(Run(Apply(s, t).0, ts), m, u)
  {
    hide Apply, LapseInv, RecentOk, MayMeet;
    StepKeeps(s, t);
    EntryChangesExactly(s, t, u);
    IssuedExactlyByClaims(s, t);
    NotMatchedOutsideQueue(Apply(s, t).0, ts, u, m);
  }

  /** Nothing in the run takes `u` out of the queue. */
  predicate KeepsWaiting(s: Keyspace, ts: seq<Step>, u: UserId)
    decreases |ts|
  {
    ts != [] ==>
      && !Departs(s, ts[0], u) && !Swept(s, ts[0], u) && !Taken(s, ts[0], u) && !Joins(s, ts[0], u)
      && KeepsWaiting(Apply(s, ts[0]).0, ts[1..], u)
  }

  /** Nobody loses a place in the queue, or what they asked for, in any other way. */
  lemma {:induction false} PlaceIsKept(s: Keyspace, ts: seq<Step>, u: UserId)
    requires RecentOk(s) && KeepsWaiting(s, ts, u)
    ensures SameEntry(s, Run(s, ts), u)
    decreases |ts|
  {
    if ts != [] {
      hide Apply, RecentOk, Joins, Departs, Swept, Taken;
      EntryChangesExactly(s, ts[0], u);
      PlaceIsKept(Apply(s, ts[0]).0, ts[1..], u);
    }
  }

  lemma {:induction false} RunKeepsRecent(s: Keyspace, ts: seq<Step>)
    requires RecentOk(s)
    ensures RecentOk(Run(s, ts))
    decreases |ts|
  {
    if ts != [] {
      hide Apply;
      EntryChangesExactly(s, ts[0], 0);
      RunKeepsRecent(Apply(s, ts[0]).0, ts[1..]);
    }
  }
}

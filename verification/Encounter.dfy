/** The shared Redis keyspace of live discovery and the Lua scripts that change it.
    Every script is one atomic step: a function from keyspace to keyspace and reply. */
module Encounter {
  import opened Basics
  import opened Preferences

  const ENCOUNTER_LENGTH: Millis := 60_000
  const RECONNECT_GRACE: Millis := 45_000

  /** A member of the `preferences` hash: the socket that queued, and what it asked for. */
  datatype Queued = Queued(socket: SocketId, preferences: Preferences)

  datatype Phase = Active | Extended(at: Millis)

  /** A `match:<id>` hash. `connection` is set together with `connectPersisted`. */
  datatype Match = Match(
    a: UserId, b: UserId, phase: Phase, startedAt: Millis, expiresAt: Millis,
    intent: string, shared: seq<string>,
    extendVotes: set<UserId>, connectVotes: set<UserId>,
    disconnected: map<UserId, Millis>, connection: Option<ConnectionId>)
  {
    predicate Has(u: UserId) { u == a || u == b }

    function Other(u: UserId): UserId { if u == a then b else a }
  }

  /** What `CurrentMatch` reads back from a match hash: votes are not part of it. */
  datatype MatchState = MatchState(
    id: MatchId, a: UserId, b: UserId, intent: string, connection: Option<ConnectionId>,
    shared: seq<string>, phase: Phase, startedAt: Millis, expiresAt: Millis)

  datatype Reason = Left | Skipped | Blocked | Expired | PeerDisconnected

  datatype Body =
    | MatchFound(peer: UserId, offerer: bool)
    | Signal(payload: string)
    | PeerGone(reconnectBy: Millis)
    | PeerBack
    | MatchExtended(extendedAt: Millis)
    | ConnectionCreated(connection: ConnectionId)
    | MatchEnded(reason: Reason)

  /** One PUBLISH to a user's channel. */
  datatype Event = Event(to: UserId, id: MatchId, body: Body)

  /** `published` is the log of PUBLISHes. `issued` remembers which pair each match identifier
      was ever claimed for: it is history, used to say that identifiers are fresh. */
  datatype Keyspace = Keyspace(
    presence: map<UserId, SocketId>,
    mapped: map<UserId, MatchId>,
    queue: map<UserId, Millis>,
    prefs: map<UserId, Queued>,
    matches: map<MatchId, Match>,
    recent: set<(UserId, UserId)>,
    deadlines: map<MatchId, Millis>,
    graces: map<(MatchId, UserId), Millis>,
    published: seq<Event>,
    issued: map<MatchId, (UserId, UserId)>)
  {
    predicate Present(u: UserId, socket: SocketId) { u in presence && presence[u] == socket }

    predicate InMatch(u: UserId, m: MatchId) { u in mapped && mapped[u] == m }

    predicate Member(u: UserId, m: MatchId) { m in matches && matches[m].Has(u) }

    /** The guard shared by the participant scripts: live socket, mapped, named in the hash. */
    predicate Acting(u: UserId, socket: SocketId, m: MatchId) {
      Present(u, socket) && InMatch(u, m) && Member(u, m)
    }
  }

  const EMPTY := Keyspace(map[], map[], map[], map[], map[], {}, map[], map[], [], map[])

  function Tell(s: Keyspace, to: UserId, m: MatchId, body: Body): Keyspace {
    s.(published := s.published + [Event(to, m, body)])
  }

  function Broadcast(s: Keyspace, m: MatchId, body: Body): Keyspace
    requires m in s.matches
  {
    s.(published := s.published + [Event(s.matches[m].a, m, body), Event(s.matches[m].b, m, body)])
  }

  function Put(s: Keyspace, m: MatchId, r: Match): Keyspace {
    s.(matches := s.matches[m := r])
  }

  function Unqueue(s: Keyspace, users: set<UserId>): Keyspace {
    s.(queue := s.queue - users, prefs := s.prefs - users)
  }

  /** The common tail of the four ending scripts. The participants' mappings are deleted
      without looking at where they point. */
  function Finish(s: Keyspace, m: MatchId, reason: Reason): Keyspace
    requires m in s.matches
  {
    var r := s.matches[m];
    Broadcast(s, m, MatchEnded(reason)).(
      mapped := s.mapped - {r.a, r.b},
      deadlines := s.deadlines - {m},
      graces := s.graces - {(m, r.a), (m, r.b)},
      matches := s.matches - {m})
  }

  function Connect(s: Keyspace, u: UserId, socket: SocketId): (Keyspace, int) {
    (s.(presence := s.presence[u := socket]), 1)
  }

  /** Heartbeat only renews time to live, which the lapse steps below leave unconstrained. */
  function Heartbeat(s: Keyspace, u: UserId, socket: SocketId): (Keyspace, int) {
    (s, if s.Present(u, socket) then 1 else 0)
  }

  function Enqueue(s: Keyspace, u: UserId, socket: SocketId, p: Preferences, now: Millis): (Keyspace, int) {
    if !s.Present(u, socket) || u in s.mapped then (s, 0)
    else (s.(prefs := s.prefs[u := Queued(socket, p)], queue := s.queue[u := now]), 1)
  }

  function LeaveQueue(s: Keyspace, u: UserId, socket: SocketId): (Keyspace, int) {
    if !s.Present(u, socket) then (s, 0) else (Unqueue(s, {u}), 1)
  }

  function CleanupQueued(s: Keyspace, u: UserId, seen: Queued): (Keyspace, int) {
    if !(u in s.prefs && s.prefs[u] == seen) then (s, 0)
    else if s.Present(u, seen.socket) then (s, 0)
    else (Unqueue(s, {u}), 1)
  }

  predicate Claimable(s: Keyspace, a: UserId, b: UserId, socketA: SocketId, socketB: SocketId, allowRecent: bool) {
    && s.Present(a, socketA) && s.Present(b, socketB)
    && a !in s.mapped && b !in s.mapped
    && a in s.queue && b in s.queue
    && (Pair(a, b) in s.recent ==> allowRecent)
  }

  function Claim(s: Keyspace, a: UserId, b: UserId, socketA: SocketId, socketB: SocketId, m: MatchId,
                 intent: string, shared: seq<string>, now: Millis, allowRecent: bool): (Keyspace, int) {
    if !Claimable(s, a, b, socketA, socketB, allowRecent) then (s, 0)
    else
      var deadline := now + ENCOUNTER_LENGTH;
      var r := Match(a, b, Active, now, deadline, intent, shared, {}, {}, map[], None);
      (Unqueue(s, {a, b}).(
         matches := s.matches[m := r],
         mapped := s.mapped[a := m][b := m],
         recent := s.recent + {Pair(a, b)},
         deadlines := s.deadlines[m := deadline],
         issued := s.issued[m := (a, b)],
         published := s.published + [Event(a, m, MatchFound(b, true)), Event(b, m, MatchFound(a, false))]), 1)
  }

  function Reconnect(s: Keyspace, u: UserId, socket: SocketId, m: MatchId, now: Millis): (Keyspace, int) {
    if !s.Acting(u, socket, m) then (s, 0)
    else
      var r := s.matches[m];
      if u in r.disconnected && 0 < r.disconnected[u] <= now then (s, 0)
      else (Tell(Put(s, m, r.(disconnected := r.disconnected - {u})).(graces := s.graces - {(m, u)}),
                 r.Other(u), m, PeerBack), 1)
  }

  function Relay(s: Keyspace, u: UserId, socket: SocketId, m: MatchId, payload: string): (Keyspace, int) {
    if !s.Acting(u, socket, m) || s.matches[m].Other(u) !in s.presence then (s, 0)
    else (Tell(s, s.matches[m].Other(u), m, Signal(payload)), 1)
  }

  function End(s: Keyspace, u: UserId, socket: SocketId, m: MatchId, reason: Reason): (Keyspace, int) {
    if !s.Acting(u, socket, m) then (s, 0) else (Finish(s, m, reason), 1)
  }

  function EndForUser(s: Keyspace, u: UserId, m: MatchId, reason: Reason): (Keyspace, int) {
    if !(s.InMatch(u, m) && s.Member(u, m)) then (s, 0) else (Finish(s, m, reason), 1)
  }

  function Extend(s: Keyspace, u: UserId, socket: SocketId, m: MatchId, now: Millis): (Keyspace, int) {
    if !s.Acting(u, socket, m) then (s, 0)
    else
      var r := s.matches[m];
      if r.phase.Extended? then (s, 2)
      else if r.expiresAt <= now then (s, -1)
      else
        var voted := r.(extendVotes := r.extendVotes + {u});
        if r.Other(u) !in voted.extendVotes then (Put(s, m, voted), 1)
        else (Broadcast(Put(s, m, voted.(phase := Extended(now))).(deadlines := s.deadlines - {m}),
                        m, MatchExtended(now)), 2)
  }

  function ConnectVote(s: Keyspace, u: UserId, socket: SocketId, m: MatchId, now: Millis): (Keyspace, int) {
    if !s.Acting(u, socket, m) then (s, 0)
    else
      var r := s.matches[m];
      if r.phase.Active? && r.expiresAt <= now then (s, -1)
      else if r.connection.Some? then (s, 3)
      else
        var voted := r.(connectVotes := r.connectVotes + {u});
        (Put(s, m, voted), if r.Other(u) in voted.connectVotes then 2 else 1)
  }

  function PublishConnection(s: Keyspace, m: MatchId, connection: ConnectionId): (Keyspace, int) {
    if m !in s.matches then (s, 0)
    else
      var r := s.matches[m];
      if !({r.a, r.b} <= r.connectVotes) || r.connection.Some? then (s, 0)
      else (Broadcast(Put(s, m, r.(connection := Some(connection))), m, ConnectionCreated(connection)), 1)
  }

  function Disconnect(s: Keyspace, u: UserId, socket: SocketId, now: Millis): (Keyspace, int) {
    if !s.Present(u, socket) then (s, 0)
    else
      var gone := Unqueue(s, {u}).(presence := s.presence - {u});
      if !(u in s.mapped && s.Member(u, s.mapped[u])) then (gone, 1)
      else
        var m := s.mapped[u];
        var r := s.matches[m];
        var deadline := now + RECONNECT_GRACE;
        (Tell(Put(gone, m, r.(disconnected := r.disconnected[u := deadline])).(graces := s.graces[(m, u) := deadline]),
              r.Other(u), m, PeerGone(deadline)), 1)
  }

  function Expire(s: Keyspace, m: MatchId, now: Millis): (Keyspace, int) {
    if m !in s.deadlines then (s, 0)
    else if m !in s.matches then (s.(deadlines := s.deadlines - {m}), 0)
    else if s.matches[m].phase.Extended? || s.matches[m].expiresAt > now then (s, 0)
    else (Finish(s, m, Expired), 1)
  }

  function GraceExpire(s: Keyspace, m: MatchId, u: UserId, now: Millis): (Keyspace, int) {
    if (m, u) !in s.graces || s.graces[(m, u)] > now then (s, 0)
    else
      var deadline := if m in s.matches && u in s.matches[m].disconnected then s.matches[m].disconnected[u] else 0;
      if deadline == 0 || deadline > now then (s.(graces := s.graces - {(m, u)}), 0)
      else (Finish(s, m, PeerDisconnected), 1)
  }

  /** Everything that can happen to the keyspace. The last four are keys reaching their time to live. */
  datatype Step =
    | DoConnect(u: UserId, socket: SocketId)
    | DoHeartbeat(u: UserId, socket: SocketId)
    | DoEnqueue(u: UserId, socket: SocketId, prefs: Preferences, now: Millis)
    | DoLeaveQueue(u: UserId, socket: SocketId)
    | DoCleanup(u: UserId, seen: Queued)
    | DoClaim(u: UserId, b: UserId, socket: SocketId, socketB: SocketId, m: MatchId,
              intent: string, shared: seq<string>, now: Millis, allowRecent: bool)
    | DoReconnect(u: UserId, socket: SocketId, m: MatchId, now: Millis)
    | DoRelay(u: UserId, socket: SocketId, m: MatchId, payload: string)
    | DoEnd(u: UserId, socket: SocketId, m: MatchId, reason: Reason)
    | DoEndForUser(u: UserId, m: MatchId, reason: Reason)
    | DoExtend(u: UserId, socket: SocketId, m: MatchId, now: Millis)
    | DoConnectVote(u: UserId, socket: SocketId, m: MatchId, now: Millis)
    | DoPublishConnection(m: MatchId, connection: ConnectionId)
    | DoDisconnect(u: UserId, socket: SocketId, now: Millis)
    | DoExpire(m: MatchId, now: Millis)
    | DoGraceExpire(m: MatchId, u: UserId, now: Millis)
    | LapsePresence(u: UserId)
    | LapseRecent(pair: (UserId, UserId))
    | LapseMapping(u: UserId)
    | LapseMatch(m: MatchId)

  function Apply(s: Keyspace, t: Step): (Keyspace, int) {
    match t
    case DoConnect(u, socket) => Connect(s, u, socket)
    case DoHeartbeat(u, socket) => Heartbeat(s, u, socket)
    case DoEnqueue(u, socket, p, now) => Enqueue(s, u, socket, p, now)
    case DoLeaveQueue(u, socket) => LeaveQueue(s, u, socket)
    case DoCleanup(u, seen) => CleanupQueued(s, u, seen)
    case DoClaim(a, b, sa, sb, m, intent, shared, now, allowRecent) =>
      Claim(s, a, b, sa, sb, m, intent, shared, now, allowRecent)
    case DoReconnect(u, socket, m, now) => Reconnect(s, u, socket, m, now)
    case DoRelay(u, socket, m, payload) => Relay(s, u, socket, m, payload)
    case DoEnd(u, socket, m, reason) => End(s, u, socket, m, reason)
    case DoEndForUser(u, m, reason) => EndForUser(s, u, m, reason)
    case DoExtend(u, socket, m, now) => Extend(s, u, socket, m, now)
    case DoConnectVote(u, socket, m, now) => ConnectVote(s, u, socket, m, now)
    case DoPublishConnection(m, connection) => PublishConnection(s, m, connection)
    case DoDisconnect(u, socket, now) => Disconnect(s, u, socket, now)
    case DoExpire(m, now) => Expire(s, m, now)
    case DoGraceExpire(m, u, now) => GraceExpire(s, m, u, now)
    case LapsePresence(u) => (s.(presence := s.presence - {u}), 0)
    case LapseRecent(pair) => (s.(recent := s.recent - {pair}), 0)
    case LapseMapping(u) => (s.(mapped := s.mapped - {u}), 0)
    case LapseMatch(m) => (s.(matches := s.matches - {m}), 0)
  }

  /** What the callers guarantee: Candidates leaves the user out, the match identifier is drawn
      at random, and participants end a match only by leaving, skipping or blocking. */
  predicate Legal(s: Keyspace, t: Step) {
    && (t.DoClaim? ==> t.u != t.b && t.m !in s.issued)
    && (t.DoEnd? ==> t.reason == Left || t.reason == Skipped)
    && (t.DoEndForUser? ==> t.reason == Blocked)
  }

  /** The scripts that end a match. */
  predicate Ends(t: Step) { t.DoEnd? || t.DoEndForUser? || t.DoExpire? || t.DoGraceExpire? }

  function ReasonOf(t: Step): Reason
    requires Ends(t)
  {
    if t.DoExpire? then Expired else if t.DoGraceExpire? then PeerDisconnected else t.reason
  }

  /** An ending script finishes its match, or at most cleans an index. */
  lemma EndOutcome(s: Keyspace, t: Step)
    requires Ends(t)
    ensures var (e, reply) := Apply(s, t);
      if reply == 1 then
        t.m in s.matches && e == Finish(s, t.m, ReasonOf(t)) && (t.DoExpire? ==> s.matches[t.m].phase.Active?)
      else e == s.(deadlines := e.deadlines, graces := e.graces)
  {
    hide Finish, Connect, Heartbeat, Enqueue, LeaveQueue, CleanupQueued, Claim, Reconnect, Relay, Extend, ConnectVote,
         PublishConnection, Disconnect;
  }

  /** The scripts that rewrite a match record. */
  predicate Rewrites(t: Step) {
    t.DoReconnect? || t.DoExtend? || t.DoConnectVote? || t.DoPublishConnection? || t.DoDisconnect?
  }

  /** A step of the model in which the keys of a live match do not lapse. */
  predicate Durable(t: Step) {
    !t.LapseMapping? && !t.LapseMatch?
  }

  function Run(s: Keyspace, ts: seq<Step>): Keyspace
    decreases |ts|
  {
    if ts == [] then s else Run(Apply(s, ts[0]).0, ts[1..])
  }

  predicate LegalRun(s: Keyspace, ts: seq<Step>)
    decreases |ts|
  {
    ts != [] ==> Legal(s, ts[0]) && LegalRun(Apply(s, ts[0]).0, ts[1..])
  }

  function StateOf(s: Keyspace, m: MatchId): MatchState
    requires m in s.matches
  {
    var r := s.matches[m];
    MatchState(m, r.a, r.b, r.intent, r.connection, r.shared, r.phase, r.startedAt, r.expiresAt)
  }

  function CurrentMatch(s: Keyspace, u: UserId): Option<MatchState> {
    if u in s.mapped && s.mapped[u] in s.matches then Some(StateOf(s, s.mapped[u])) else None
  }
}

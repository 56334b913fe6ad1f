/** The store as it runs: scripts that update the shared keys in place, line by line, each
    proved against its step function; and the sweeper loop. */
module EncounterStore {
  import opened Basics
  import opened Encounter
  import opened Preferences
  import R = EncounterRaces
  import I = EncounterInvariants

  class Store {
    var presence: map<UserId, SocketId>
    var mapped: map<UserId, MatchId>
    var queue: map<UserId, Millis>
    var prefs: map<UserId, Queued>
    var matches: map<MatchId, Match>
    var recent: set<(UserId, UserId)>
    var deadlines: map<MatchId, Millis>
    var graces: map<(MatchId, UserId), Millis>
    var published: seq<Event>
    ghost var issued: map<MatchId, (UserId, UserId)>

    ghost function View(): Keyspace
      reads this
    {
      Keyspace(presence, mapped, queue, prefs, matches, recent, deadlines, graces, published, issued)
    }

    constructor ()
      ensures View() == EMPTY
    {
      presence, mapped, queue, prefs, matches := map[], map[], map[], map[], map[];
      recent, deadlines, graces, published, issued := {}, map[], map[], [], map[];
    }

    predicate Present(u: UserId, socket: SocketId)
      reads this
    {
      u in presence && presence[u] == socket
    }

    predicate InMatch(u: UserId, m: MatchId)
      reads this
    {
      u in mapped && mapped[u] == m
    }

    method Connect(u: UserId, socket: SocketId)
      modifies this
      ensures View() == Encounter.Connect(old(View()), u, socket).0
    {
      presence := presence[u := socket];
    }

    method Enqueue(u: UserId, socket: SocketId, p: Preferences, now: Millis) returns (reply: int)
      modifies this
      ensures (View(), reply) == Encounter.Enqueue(old(View()), u, socket, p, now)
    {
      if !Present(u, socket) || u in mapped { return 0; }
      prefs := prefs[u := Queued(socket, p)];
      queue := queue[u := now];
      return 1;
    }

    method LeaveQueue(u: UserId, socket: SocketId) returns (reply: int)
      modifies this
      ensures (View(), reply) == Encounter.LeaveQueue(old(View()), u, socket)
    {
      if !Present(u, socket) { return 0; }
      queue := queue - {u};
      prefs := prefs - {u};
      return 1;
    }

    method CleanupQueued(u: UserId, seen: Queued) returns (reply: int)
      modifies this
      ensures (View(), reply) == Encounter.CleanupQueued(old(View()), u, seen)
    {
      if u !in prefs || prefs[u] != seen { return 0; }
      if Present(u, seen.socket) { return 0; }
      queue := queue - {u};
      prefs := prefs - {u};
      return 1;
    }

    method Claim(a: UserId, b: UserId, socketA: SocketId, socketB: SocketId, m: MatchId, intent: string,
                 shared: seq<string>, now: Millis, allowRecent: bool) returns (reply: int)
      modifies this
      ensures (View(), reply) == Encounter.Claim(old(View()), a, b, socketA, socketB, m, intent, shared, now, allowRecent)
    {
      if !Present(a, socketA) || !Present(b, socketB) { return 0; }
      if a in mapped || b in mapped { return 0; }
      if a !in queue || b !in queue { return 0; }
      if Pair(a, b) in recent && !allowRecent { return 0; }
      Admit(a, b, m, intent, shared, now);
      return 1;
    }

    /** The writes of the claim script, once its guards have passed. */
    method Admit(a: UserId, b: UserId, m: MatchId, intent: string, shared: seq<string>, now: Millis)
      modifies `queue, `prefs, `matches, `mapped, `recent, `deadlines, `issued, `published
      ensures queue == old(queue) - {a, b} && prefs == old(prefs) - {a, b}
      ensures matches == old(matches)[m := Match(a, b, Active, now, now + ENCOUNTER_LENGTH, intent, shared, {}, {}, map[], None)]
      ensures mapped == old(mapped)[a := m][b := m] && recent == old(recent) + {Pair(a, b)}
      ensures deadlines == old(deadlines)[m := now + ENCOUNTER_LENGTH] && issued == old(issued)[m := (a, b)]
      ensures published == old(published) + [Event(a, m, MatchFound(b, true)), Event(b, m, MatchFound(a, false))]
    {
      queue := queue - {a, b};
      prefs := prefs - {a, b};
      matches := matches[m := Match(a, b, Active, now, now + ENCOUNTER_LENGTH, intent, shared, {}, {}, map[], None)];
      mapped := mapped[a := m][b := m];
      recent := recent + {Pair(a, b)};
      deadlines := deadlines[m := now + ENCOUNTER_LENGTH];
      issued := issued[m := (a, b)];
      published := published + [Event(a, m, MatchFound(b, true)), Event(b, m, MatchFound(a, false))];
    }

    method Reconnect(u: UserId, socket: SocketId, m: MatchId, now: Millis) returns (reply: int)
      modifies this
      ensures (View(), reply) == Encounter.Reconnect(old(View()), u, socket, m, now)
    {
      if !Present(u, socket) || !InMatch(u, m) || m !in matches { return 0; }
      var r := matches[m];
      var other;
      if u == r.a { other := r.b; } else if u == r.b { other := r.a; } else { return 0; }
      var deadline := if u in r.disconnected then r.disconnected[u] else 0;
      if 0 < deadline <= now { return 0; }
      matches := matches[m := r.(disconnected := r.disconnected - {u})];
      graces := graces - {(m, u)};
      published := published + [Event(other, m, PeerBack)];
      return 1;
    }

    method Relay(u: UserId, socket: SocketId, m: MatchId, payload: string) returns (reply: int)
      modifies this
      ensures (View(), reply) == Encounter.Relay(old(View()), u, socket, m, payload)
    {
      if !Present(u, socket) || !InMatch(u, m) || m !in matches { return 0; }
      var r := matches[m];
      var other;
      if u == r.a { other := r.b; } else if u == r.b { other := r.a; } else { return 0; }
      if other !in presence { return 0; }
      published := published + [Event(other, m, Signal(payload))];
      return 1;
    }

    /** The shared tail of the ending scripts. */
    method Finish(m: MatchId, reason: Reason)
      requires m in matches
      modifies this
      ensures View() == Encounter.Finish(old(View()), m, reason)
    {
      var r := matches[m];
      mapped := mapped - {r.a};
      published := published + [Event(r.a, m, MatchEnded(reason))];
      mapped := mapped - {r.b};
      published := published + [Event(r.b, m, MatchEnded(reason))];
      deadlines := deadlines - {m};
      graces := graces - {(m, r.a), (m, r.b)};
      matches := matches - {m};
      assert published == old(published) + [Event(r.a, m, MatchEnded(reason)), Event(r.b, m, MatchEnded(reason))];
      assert mapped == old(mapped) - {r.a, r.b};
    }

    method EndMatch(u: UserId, socket: SocketId, m: MatchId, reason: Reason) returns (reply: int)
      modifies this
      ensures (View(), reply) == End(old(View()), u, socket, m, reason)
    {
      if !Present(u, socket) || !InMatch(u, m) { return 0; }
      if m !in matches || (u != matches[m].a && u != matches[m].b) { return 0; }
      Finish(m, reason);
      return 1;
    }

    method EndForUser(u: UserId, m: MatchId, reason: Reason) returns (reply: int)
      modifies this
      ensures (View(), reply) == Encounter.EndForUser(old(View()), u, m, reason)
    {
      if !InMatch(u, m) { return 0; }
      if m !in matches || (u != matches[m].a && u != matches[m].b) { return 0; }
      Finish(m, reason);
      return 1;
    }

    method Extend(u: UserId, socket: SocketId, m: MatchId, now: Millis) returns (reply: int)
      modifies this
      ensures (View(), reply) == Encounter.Extend(old(View()), u, socket, m, now)
    {
      if !Present(u, socket) || !InMatch(u, m) { return 0; }
      if m !in matches || (u != matches[m].a && u != matches[m].b) { return 0; }
      var r := matches[m];
      if r.phase.Extended? { return 2; }
      if r.expiresAt <= now { return -1; }
      r := r.(extendVotes := r.extendVotes + {u});
      matches := matches[m := r];
      var other := if u == r.b then r.a else r.b;
      if other !in r.extendVotes { return 1; }
      matches := matches[m := r.(phase := Extended(now))];
      assert matches == old(matches)[m := r.(phase := Extended(now))];
      deadlines := deadlines - {m};
      published := published + [Event(r.a, m, MatchExtended(now))];
      published := published + [Event(r.b, m, MatchExtended(now))];
      assert published == old(published) + [Event(r.a, m, MatchExtended(now)), Event(r.b, m, MatchExtended(now))];
      return 2;
    }

    method ConnectVote(u: UserId, socket: SocketId, m: MatchId, now: Millis) returns (reply: int)
      modifies this
      ensures (View(), reply) == Encounter.ConnectVote(old(View()), u, socket, m, now)
    {
      if !Present(u, socket) || !InMatch(u, m) { return 0; }
      if m !in matches || (u != matches[m].a && u != matches[m].b) { return 0; }
      var r := matches[m];
      if !r.phase.Extended? && r.expiresAt <= now { return -1; }
      if r.connection.Some? { return 3; }
      r := r.(connectVotes := r.connectVotes + {u});
      matches := matches[m := r];
      var other := if u == r.b then r.a else r.b;
      if other !in r.connectVotes { return 1; }
      return 2;
    }

    method PublishConnection(m: MatchId, connection: ConnectionId) returns (reply: int)
      modifies this
      ensures (View(), reply) == Encounter.PublishConnection(old(View()), m, connection)
    {
      if m !in matches { return 0; }
      var r := matches[m];
      if r.a !in r.connectVotes || r.b !in r.connectVotes { return 0; }
      if r.connection.Some? { return 0; }
      matches := matches[m := r.(connection := Some(connection))];
      published := published + [Event(r.a, m, ConnectionCreated(connection))];
      published := published + [Event(r.b, m, ConnectionCreated(connection))];
      assert published == old(published)
        + [Event(r.a, m, ConnectionCreated(connection)), Event(r.b, m, ConnectionCreated(connection))];
      return 1;
    }

    method Disconnect(u: UserId, socket: SocketId, now: Millis) returns (reply: int)
      modifies this
      ensures (View(), reply) == Encounter.Disconnect(old(View()), u, socket, now)
    {
      if !Present(u, socket) { return 0; }
      presence := presence - {u};
      queue := queue - {u};
      prefs := prefs - {u};
      if u !in mapped { return 1; }
      var m := mapped[u];
      if m !in matches { return 1; }
      var r := matches[m];
      var other;
      if u == r.a { other := r.b; } else if u == r.b { other := r.a; } else { return 1; }
      var deadline := now + RECONNECT_GRACE;
      matches := matches[m := r.(disconnected := r.disconnected[u := deadline])];
      graces := graces[(m, u) := deadline];
      published := published + [Event(other, m, PeerGone(deadline))];
      return 1;
    }

    method Expire(m: MatchId, now: Millis) returns (reply: int)
      modifies this
      ensures (View(), reply) == Encounter.Expire(old(View()), m, now)
    {
      if m !in deadlines { return 0; }
      if m !in matches { deadlines := deadlines - {m}; return 0; }
      if !matches[m].phase.Active? || matches[m].expiresAt > now { return 0; }
      Finish(m, Expired);
      return 1;
    }

    method GraceExpire(m: MatchId, u: UserId, now: Millis) returns (reply: int)
      modifies this
      ensures (View(), reply) == Encounter.GraceExpire(old(View()), m, u, now)
    {
      if (m, u) !in graces || graces[(m, u)] > now { return 0; }
      var deadline := 0;
      if m in matches && u in matches[m].disconnected { deadline := matches[m].disconnected[u]; }
      if deadline == 0 || deadline > now { graces := graces - {(m, u)}; return 0; }
      Finish(m, PeerDisconnected);
      return 1;
    }

    /** The sweeper's tick: each page is read once, then every entry of it goes through its script. */
    method Sweep(now: Millis) returns (ghost tick: R.Tick)
      requires I.LapseInv(View())
      modifies this
      ensures R.IsTick(old(View()), tick, now) && View() == R.Sweep(old(View()), tick, now)
      ensures I.LapseInv(View())
      ensures |R.Due(deadlines, now)| <= R.Left(|old(R.Due(deadlines, now))|, 100)
      ensures |R.Due(graces, now)| <= R.Left(|old(R.Due(graces, now))|, 100)
    {
      hide R.IsSelection, I.LapseInv, Encounter.Expire, Encounter.GraceExpire;
      ghost var before := View();
      var ids := FirstDue(deadlines, now, R.SWEEP_LIMIT);
      for i := 0 to |ids|
        invariant R.ExpireAll(before, ids, now) == R.ExpireAll(View(), ids[i..], now)
      {
        var _ := Expire(ids[i], now);
      }
      assert ids[|ids|..] == [];
      ghost var middle := View();
      var ks := FirstDue(graces, now, R.SWEEP_LIMIT);
      for i := 0 to |ks|
        invariant R.GraceExpireAll(middle, ks, now) == R.GraceExpireAll(View(), ks[i..], now)
      {
        var _ := GraceExpire(ks[i].0, ks[i].1, now);
      }
      assert ks[|ks|..] == [];
      tick := R.Tick(ids, ks);
      R.SweepProgress(before, tick, now);
    }
  }

  lemma {:induction false} LeastExists<K>(index: map<K, Millis>, left: set<K>) returns (k: K)
    requires left != {} && left <= index.Keys
    ensures k in left && forall x | x in left :: index[k] <= index[x]
    decreases |left|
  {
    k :| k in left;
    if left != {k} {
      var y := LeastExists(index, left - {k});
      if index[y] < index[k] { k := y; }
    }
  }

  /** ZRANGEBYSCORE -inf now LIMIT 0 limit, earliest first. */
  method FirstDue<K(==, !new)>(index: map<K, Millis>, now: Millis, limit: nat) returns (sel: seq<K>)
    ensures R.IsSelection(sel, index, now, limit)
  {
    sel := [];
    var left := set k | k in index.Keys && index[k] <= now;
    ghost var due := left;
    while |sel| < limit && left != {}
      invariant |sel| <= limit && R.Distinct(sel)
      invariant left <= due && forall k :: k in due <==> k in left || k in sel
      invariant forall k | k in sel :: k in due && k !in left
      invariant forall i | 0 <= i < |sel| :: sel[i] in index
      invariant forall i, j | 0 <= i < j < |sel| :: index[sel[i]] <= index[sel[j]]
      invariant forall k, x | k in sel && x in left :: index[k] <= index[x]
      decreases left
    {
      ghost var least := LeastExists(index, left);
      var k :| k in left && forall x | x in left :: index[k] <= index[x];
      sel := sel + [k];
      left := left - {k};
    }
  }
}

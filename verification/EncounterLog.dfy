/** What reaches the users' channels: each broadcast of a match happens once, to both
    participants, and nothing follows match.ended. Holds even when keys lapse. */
module EncounterLog {
  import opened Basics
  import opened Encounter
  import opened EncounterInvariants

  /** Events that go to both participants at once. */
  predicate IsBroadcast(b: Body) {
    b.MatchFound? || b.MatchExtended? || b.ConnectionCreated? || b.MatchEnded?
  }

  predicate SameKind(b: Body, c: Body) {
    || (b.MatchFound? && c.MatchFound?)
    || (b.MatchExtended? && c.MatchExtended?)
    || (b.ConnectionCreated? && c.ConnectionCreated?)
    || (b.MatchEnded? && c.MatchEnded?)
  }

  predicate InPair(u: UserId, pair: (UserId, UserId)) { u == pair.0 || u == pair.1 }

  // ---- what one step may publish ----

  ghost predicate NewEvent(s: Keyspace, e: Keyspace, ev: Event) {
    && ev.id in e.issued && InPair(ev.to, e.issued[ev.id])
    && (if ev.body.MatchFound? then ev.id !in s.issued else ev.id in s.matches)
    && (ev.body.MatchEnded? ==> ev.id !in e.matches && (ev.body.reason == Expired ==> s.matches[ev.id].phase.Active?))
    && (ev.body.MatchExtended? ==> s.matches[ev.id].phase.Active? && ev.id in e.matches
                                   && e.matches[ev.id].phase == Extended(ev.body.extendedAt))
    && (ev.body.ConnectionCreated? ==> s.matches[ev.id].connection.None? && ev.id in e.matches
                                       && e.matches[ev.id].connection == Some(ev.body.connection))
  }

  ghost predicate Tail(s: Keyspace, e: Keyspace, tail: seq<Event>) {
    && e.published == s.published + tail
    && match |tail| {
         case 0 => true
         case 1 => NewEvent(s, e, tail[0]) && !IsBroadcast(tail[0].body)
         case 2 =>
           && NewEvent(s, e, tail[0]) && NewEvent(s, e, tail[1]) && IsBroadcast(tail[0].body)
           && tail[0].id == tail[1].id && tail[0].to != tail[1].to
           && (tail[0].body == tail[1].body || (tail[0].body.MatchFound? && tail[1].body.MatchFound?))
         case _ => false
       }
  }

  /** What a step may do to a record that existed before it. */
  ghost predicate Evolves(s: Keyspace, e: Keyspace, m: MatchId) {
    m in s.issued ==>
      && m in e.issued && e.issued[m] == s.issued[m]
      && (m in e.matches ==>
            && m in s.matches
            && (s.matches[m].phase.Extended? ==> e.matches[m].phase == s.matches[m].phase)
            && (s.matches[m].connection.Some? ==> e.matches[m].connection == s.matches[m].connection)
            && (s.matches[m].phase == e.matches[m].phase || s.matches[m].expiresAt == e.matches[m].expiresAt))
  }

  lemma FinishSpeaks(s: Keyspace, m: MatchId, reason: Reason)
    requires LapseInv(s) && m in s.matches && (reason == Expired ==> s.matches[m].phase.Active?)
    ensures var r := s.matches[m];
      Tail(s, Finish(s, m, reason), [Event(r.a, m, MatchEnded(reason)), Event(r.b, m, MatchEnded(reason))])
    ensures forall n :: Evolves(s, Finish(s, m, reason), n)
  {
    hide LapseInv;
    RecordAt(s, m);
  }

  lemma ExtendSpeaks(s: Keyspace, v: UserId, socket: SocketId, m: MatchId, now: Millis, n: MatchId) returns (tail: seq<Event>)
    requires LapseInv(s)
    ensures Tail(s, Extend(s, v, socket, m, now).0, tail) && Evolves(s, Extend(s, v, socket, m, now).0, n)
  {
    hide LapseInv;
    tail := [];
    if m in s.matches {
      RecordAt(s, m);
      var r := s.matches[m];
      if |Extend(s, v, socket, m, now).0.published| > |s.published| {
        tail := [Event(r.a, m, MatchExtended(now)), Event(r.b, m, MatchExtended(now))];
      }
    }
  }

  lemma PublishSpeaks(s: Keyspace, m: MatchId, c: ConnectionId, n: MatchId) returns (tail: seq<Event>)
    requires LapseInv(s)
    ensures Tail(s, PublishConnection(s, m, c).0, tail) && Evolves(s, PublishConnection(s, m, c).0, n)
  {
    hide LapseInv;
    tail := [];
    if m in s.matches {
      RecordAt(s, m);
      var r := s.matches[m];
      if PublishConnection(s, m, c).1 == 1 {
        tail := [Event(r.a, m, ConnectionCreated(c)), Event(r.b, m, ConnectionCreated(c))];
      }
    }
  }

  lemma ReconnectSpeaks(s: Keyspace, v: UserId, socket: SocketId, m: MatchId, now: Millis, n: MatchId) returns (tail: seq<Event>)
    requires LapseInv(s)
    ensures Tail(s, Reconnect(s, v, socket, m, now).0, tail) && Evolves(s, Reconnect(s, v, socket, m, now).0, n)
  {
    hide LapseInv;
    tail := [];
    if m in s.matches {
      RecordAt(s, m);
      if Reconnect(s, v, socket, m, now).1 == 1 { tail := [Event(s.matches[m].Other(v), m, PeerBack)]; }
    }
  }

  lemma DisconnectSpeaks(s: Keyspace, v: UserId, socket: SocketId, now: Millis, n: MatchId) returns (tail: seq<Event>)
    requires LapseInv(s)
    ensures Tail(s, Disconnect(s, v, socket, now).0, tail) && Evolves(s, Disconnect(s, v, socket, now).0, n)
  {
    hide LapseInv;
    tail := [];
    if s.Present(v, socket) && v in s.mapped && s.Member(v, s.mapped[v]) {
      var m := s.mapped[v];
      RecordAt(s, m);
      tail := [Event(s.matches[m].Other(v), m, PeerGone(now + RECONNECT_GRACE))];
    }
  }

  lemma ClaimSpeaks(s: Keyspace, t: Step, e: Keyspace, n: MatchId) returns (tail: seq<Event>)
    requires t.DoClaim? && Legal(s, t)
    requires e == Claim(s, t.u, t.b, t.socket, t.socketB, t.m, t.intent, t.shared, t.now, t.allowRecent).0
    ensures Tail(s, e, tail) && Evolves(s, e, n)
  {
    tail := if e == s then [] else [Event(t.u, t.m, MatchFound(t.b, true)), Event(t.b, t.m, MatchFound(t.u, false))];
  }

  lemma RelaySpeaks(s: Keyspace, v: UserId, socket: SocketId, m: MatchId, payload: string) returns (tail: seq<Event>)
    requires LapseInv(s)
    ensures Tail(s, Relay(s, v, socket, m, payload).0, tail)
  {
    hide LapseInv;
    tail := [];
    if m in s.matches {
      RecordAt(s, m);
      if Relay(s, v, socket, m, payload).1 == 1 { tail := [Event(s.matches[m].Other(v), m, Signal(payload))]; }
    }
  }

  predicate Quiet(t: Step) {
    t.DoConnect? || t.DoHeartbeat? || t.DoEnqueue? || t.DoLeaveQueue? || t.DoCleanup? || t.DoConnectVote?
    || t.LapsePresence? || t.LapseRecent? || t.LapseMapping? || t.LapseMatch?
  }

  lemma VoteSpeaks(s: Keyspace, v: UserId, socket: SocketId, m: MatchId, now: Millis, n: MatchId)
    ensures Tail(s, ConnectVote(s, v, socket, m, now).0, []) && Evolves(s, ConnectVote(s, v, socket, m, now).0, n)
  {}

  /** Steps that leave the records and the log alone, or drop a record. */
  lemma RecordsLeft(s: Keyspace, t: Step)
    requires Quiet(t) && !t.DoConnectVote?
    ensures var e := Apply(s, t).0;
      && e.published == s.published && e.issued == s.issued
      && e.matches == if t.LapseMatch? then s.matches - {t.m} else s.matches
  {
    hide Claim, Reconnect, Relay, End, EndForUser, Extend, ConnectVote, PublishConnection, Disconnect, Expire, GraceExpire, Finish;
  }

  lemma QuietSpeaks(s: Keyspace, t: Step, n: MatchId)
    requires Quiet(t)
    ensures Tail(s, Apply(s, t).0, []) && Evolves(s, Apply(s, t).0, n)
  {
    hide Connect, Heartbeat, Enqueue, LeaveQueue, CleanupQueued, Claim, Reconnect, Relay, End, EndForUser, Extend, ConnectVote,
         PublishConnection, Disconnect, Expire, GraceExpire;
    if t.DoConnectVote? {
      VoteSpeaks(s, t.u, t.socket, t.m, t.now, n);
      hide Tail, Evolves;
    } else {
      RecordsLeft(s, t);
    }
  }

  lemma EndSpeaks(s: Keyspace, t: Step, n: MatchId) returns (tail: seq<Event>)
    requires LapseInv(s) && Legal(s, t) && Ends(t)
    ensures Tail(s, Apply(s, t).0, tail) && Evolves(s, Apply(s, t).0, n)
  {
    hide LapseInv, Apply, Finish, NewEvent;
    EndOutcome(s, t);
    tail := [];
    if Apply(s, t).1 == 1 {
      var r := s.matches[t.m];
      FinishSpeaks(s, t.m, ReasonOf(t));
      tail := [Event(r.a, t.m, MatchEnded(ReasonOf(t))), Event(r.b, t.m, MatchEnded(ReasonOf(t)))];
    }
  }

  /** What any step publishes, and what it does to the record of match `n`. */
  lemma StepSpeaks(s: Keyspace, t: Step, n: MatchId) returns (tail: seq<Event>)
    requires LapseInv(s) && Legal(s, t)
    ensures Tail(s, Apply(s, t).0, tail) && Evolves(s, Apply(s, t).0, n)
  {
    hide LapseInv, Connect, Enqueue, LeaveQueue, CleanupQueued, Claim, Reconnect, Extend, ConnectVote, PublishConnection,
         Disconnect, End, EndForUser, Expire, GraceExpire, Tail;
    match t
    case DoClaim(_, _, _, _, _, _, _, _, _) => tail := ClaimSpeaks(s, t, Apply(s, t).0, n);
    case DoReconnect(v, socket, m, now) => tail := ReconnectSpeaks(s, v, socket, m, now, n);
    case DoExtend(v, socket, m, now) => tail := ExtendSpeaks(s, v, socket, m, now, n);
    case DoPublishConnection(m, c) => tail := PublishSpeaks(s, m, c, n);
    case DoDisconnect(v, socket, now) => tail := DisconnectSpeaks(s, v, socket, now, n);
    case DoRelay(v, socket, m, payload) => tail := RelaySpeaks(s, v, socket, m, payload);
    case _ => if Ends(t) { tail := EndSpeaks(s, t, n); } else { tail := []; QuietSpeaks(s, t, n); }
  }

  /** A match identifier is never revived, an extension is never taken back or moved, and neither
      is a stored connection, in any run. */
  lemma {:induction false} SettledForever(s: Keyspace, ts: seq<Step>, m: MatchId)
    requires LapseInv(s) && LegalRun(s, ts) && m in s.issued
    ensures var e := Run(s, ts);
      && m in e.issued && e.issued[m] == s.issued[m]
      && (m in e.matches ==>
            && m in s.matches
            && (s.matches[m].phase.Extended? ==> e.matches[m].phase == s.matches[m].phase)
            && (s.matches[m].connection.Some? ==> e.matches[m].connection == s.matches[m].connection))
    decreases |ts|
  {
    if ts != [] {
      hide Apply, LapseInv;
      StepKeeps(s, ts[0]);
      var _ := StepSpeaks(s, ts[0], m);
      SettledForever(Apply(s, ts[0]).0, ts[1..], m);
    }
  }

  // ---- the log ----

  ghost predicate Heard(s: Keyspace, i: nat) {
    i < |s.published| ==>
      var ev := s.published[i];
      && ev.id in s.issued && InPair(ev.to, s.issued[ev.id])
      && (ev.id in s.matches ==>
            && !ev.body.MatchEnded?
            && (ev.body.MatchExtended? ==> s.matches[ev.id].phase == Extended(ev.body.extendedAt))
            && (ev.body.ConnectionCreated? ==> s.matches[ev.id].connection == Some(ev.body.connection)))
  }

  /** Two broadcasts of one kind for one match are the two halves of a single broadcast, and
      after match.ended there is only its other half. An extended match never expires. */
  ghost predicate Apart(log: seq<Event>, i: nat, j: nat) {
    i < j < |log| && log[i].id == log[j].id ==>
      && (SameKind(log[i].body, log[j].body) ==>
            && j == i + 1 && log[i].to != log[j].to
            && (log[i].body == log[j].body || log[i].body.MatchFound?))
      && (log[i].body.MatchEnded? ==> log[j].body.MatchEnded?)
      && (log[i].body.MatchExtended? ==> log[j].body != MatchEnded(Expired))
  }

  /** A broadcast has its other half next to it. */
  ghost predicate HasTwin(log: seq<Event>, i: nat) {
    i < |log| && IsBroadcast(log[i].body) ==>
      || (i + 1 < |log| && Twins(log[i], log[i + 1]))
      || (0 < i && Twins(log[i - 1], log[i]))
  }

  ghost predicate Twins(x: Event, y: Event) {
    x.id == y.id && x.to != y.to && SameKind(x.body, y.body)
  }

  ghost predicate LogInv(s: Keyspace) {
    && (forall i: nat :: Heard(s, i))
    && (forall i: nat, j: nat :: Apart(s.published, i, j))
    && (forall i: nat :: HasTwin(s.published, i))
  }

  lemma StepKeepsLog(s: Keyspace, t: Step)
    requires LapseInv(s) && LogInv(s) && Legal(s, t)
    ensures LogInv(Apply(s, t).0)
  {
    hide Apply, LapseInv, Evolves, NewEvent, Heard;
    var e := Apply(s, t).0;
    var tail := StepSpeaks(s, t, 0);
    forall i: nat ensures Heard(e, i) { HeardAfter(s, e, t, tail, i); }
    forall i: nat, j: nat ensures Apart(e.published, i, j) {
      assert Apart(s.published, i, j) && Heard(s, i);
      ApartAfter(s, e, tail, i, j);
    }
    forall i: nat ensures HasTwin(e.published, i) {
      assert HasTwin(s.published, i);
    }
  }

  lemma HeardAfter(s: Keyspace, e: Keyspace, t: Step, tail: seq<Event>, i: nat)
    requires LapseInv(s) && LogInv(s) && Legal(s, t) && e == Apply(s, t).0 && Tail(s, e, tail)
    ensures Heard(e, i)
  {
    hide Apply;
    if i < |s.published| {
      assert Heard(s, i);
      var _ := StepSpeaks(s, t, s.published[i].id);
    }
  }

  lemma ApartAfter(s: Keyspace, e: Keyspace, tail: seq<Event>, i: nat, j: nat)
    requires Tail(s, e, tail) && Apart(s.published, i, j) && Heard(s, i)
    ensures Apart(e.published, i, j)
  {}

  /** In any run, lapses included: every participant hears match.ended, match.extended and
      connection.created at most once per match, always together with the other participant,
      and after match.ended nothing else about the match. */
  lemma {:induction false} RunKeepsLog(s: Keyspace, ts: seq<Step>)
    requires LapseInv(s) && LogInv(s) && LegalRun(s, ts)
    ensures LogInv(Run(s, ts)) && LapseInv(Run(s, ts))
    decreases |ts|
  {
    if ts != [] {
      StepKeeps(s, ts[0]);
      StepKeepsLog(s, ts[0]);
      RunKeepsLog(Apply(s, ts[0]).0, ts[1..]);
    }
  }

  lemma EmptyLog()
    ensures LapseInv(EMPTY) && LogInv(EMPTY)
  {}

  lemma EachHearsOnce(ts: seq<Step>, i: nat, j: nat)
    requires LegalRun(EMPTY, ts)
    requires i < |Run(EMPTY, ts).published| && j < |Run(EMPTY, ts).published|
    ensures var log := Run(EMPTY, ts).published;
      && (log[i].to == log[j].to && log[i].id == log[j].id && SameKind(log[i].body, log[j].body) ==> i == j)
      && (i < j && log[i].id == log[j].id && log[i].body.MatchEnded? ==> j == i + 1 && log[j].body == log[i].body)
      && (i < j && log[i].id == log[j].id && log[i].body.MatchExtended? ==> log[j].body != MatchEnded(Expired))
      && (IsBroadcast(log[i].body) ==> exists k: nat :: k < |log| && (Twins(log[i], log[k]) || Twins(log[k], log[i])))
  {
    EmptyLog();
    RunKeepsLog(EMPTY, ts);
    var log := Run(EMPTY, ts).published;
    assert Apart(log, i, j) && Apart(log, j, i) && HasTwin(log, i);
    if IsBroadcast(log[i].body) {
      if i + 1 < |log| && Twins(log[i], log[i + 1]) {
        assert Twins(log[i], log[i + 1]);
      } else {
        assert Twins(log[i - 1], log[i]);
      }
    }
  }
}

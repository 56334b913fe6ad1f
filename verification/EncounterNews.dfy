/** What participants are told: every change that concerns them is in the log, and each message to a
    peer reports something that has happened. EncounterLog says that nothing is told twice. */
module EncounterNews {
  import opened Basics
  import opened Encounter
  import opened EncounterInvariants
  import L = EncounterLog
  import Q = EncounterQueue

  /** Both members of the pair have been told. */
  predicate BothTold(s: Keyspace, m: MatchId, body: Body) {
    m in s.issued && Event(s.issued[m].0, m, body) in s.published && Event(s.issued[m].1, m, body) in s.published
  }

  /** match.found went to both, and exactly one of them is to make the offer. */
  predicate FoundTold(s: Keyspace, m: MatchId) {
    && m in s.issued
    && Event(s.issued[m].0, m, MatchFound(s.issued[m].1, true)) in s.published
    && Event(s.issued[m].1, m, MatchFound(s.issued[m].0, false)) in s.published
  }

  /** Everything that has become of match `m` has been told to both. */
  ghost predicate NewsOf(s: Keyspace, m: MatchId) {
    && (m in s.issued ==> FoundTold(s, m))
    && (m in s.matches && s.matches[m].phase.Extended? ==> BothTold(s, m, MatchExtended(s.matches[m].phase.at)))
    && (m in s.matches && s.matches[m].connection.Some? ==> BothTold(s, m, ConnectionCreated(s.matches[m].connection.value)))
  }

  ghost predicate EndTold(s: Keyspace, m: MatchId) { exists reason :: BothTold(s, m, MatchEnded(reason)) }

  predicate Prefix(a: seq<Event>, b: seq<Event>) { |a| <= |b| && b[..|a|] == a }

  lemma StillTold(s: Keyspace, e: Keyspace, m: MatchId)
    requires Prefix(s.published, e.published) && m in s.issued && m in e.issued && e.issued[m] == s.issued[m]
    ensures forall body :: BothTold(s, m, body) ==> BothTold(e, m, body)
    ensures FoundTold(s, m) ==> FoundTold(e, m)
  {
    forall ev | ev in s.published ensures ev in e.published {
      var i :| 0 <= i < |s.published| && s.published[i] == ev;
      assert e.published[..|s.published|][i] == e.published[i];
    }
  }

  /** What a step adds to the log it adds at the end. */
  lemma LogOnlyGrows(s: Keyspace, t: Step, m: MatchId)
    requires LapseInv(s) && Legal(s, t)
    ensures Prefix(s.published, Apply(s, t).0.published)
    ensures L.Evolves(s, Apply(s, t).0, m)
  {
    hide Apply, LapseInv, L.Evolves;
    var tail := L.StepSpeaks(s, t, m);
  }

  // ---- the broadcasts ----

  lemma ClaimTells(s: Keyspace, t: Step)
    requires t.DoClaim? && Apply(s, t).1 == 1
    ensures FoundTold(Apply(s, t).0, t.m)
  {
    hide Connect, Heartbeat, Enqueue, LeaveQueue, CleanupQueued, Reconnect, Relay, Extend, ConnectVote, PublishConnection,
         Disconnect, End, EndForUser, Expire, GraceExpire;
    var e := Apply(s, t).0;
    var n := |s.published|;
    assert e.published[n] == Event(t.u, t.m, MatchFound(t.b, true));
    assert e.published[n + 1] == Event(t.b, t.m, MatchFound(t.u, false));
  }

  lemma BroadcastTells(s: Keyspace, e: Keyspace, m: MatchId, body: Body)
    requires m in s.matches && m in e.issued && e.issued[m] == (s.matches[m].a, s.matches[m].b)
    requires e.published == s.published + [Event(s.matches[m].a, m, body), Event(s.matches[m].b, m, body)]
    ensures BothTold(e, m, body)
  {
    var n := |s.published|;
    assert e.published[n] == Event(s.matches[m].a, m, body) && e.published[n + 1] == Event(s.matches[m].b, m, body);
  }

  lemma PairOfRecord(s: Keyspace, m: MatchId)
    requires LapseInv(s) && m in s.matches
    ensures m in s.issued && s.issued[m] == (s.matches[m].a, s.matches[m].b)
  {
    RecordAt(s, m);
  }

  /** The vote that completes the pair. */
  lemma CompletionSays(s: Keyspace, u: UserId, socket: SocketId, m: MatchId, now: Millis)
    requires s.Acting(u, socket, m) && s.matches[m].phase.Active? && now < s.matches[m].expiresAt
    requires s.matches[m].Other(u) in s.matches[m].extendVotes + {u}
    ensures var r := s.matches[m];
      var extended := r.(extendVotes := r.extendVotes + {u}, phase := Extended(now));
      Extend(s, u, socket, m, now) ==
        (s.(matches := s.matches[m := extended], deadlines := s.deadlines - {m},
            published := s.published + [Event(r.a, m, MatchExtended(now)), Event(r.b, m, MatchExtended(now))]), 2)
  {}

  /** Any other vote. */
  lemma OtherVoteSays(s: Keyspace, u: UserId, socket: SocketId, m: MatchId, now: Millis)
    requires m in s.matches
    requires !(s.Acting(u, socket, m) && s.matches[m].phase.Active? && now < s.matches[m].expiresAt
               && s.matches[m].Other(u) in s.matches[m].extendVotes + {u})
    ensures var e := Extend(s, u, socket, m, now).0; e.issued == s.issued && SameState(s, e, m)
  {}

  lemma ExtendSays(s: Keyspace, u: UserId, socket: SocketId, m: MatchId, now: Millis)
    requires m in s.matches
    ensures var e := Extend(s, u, socket, m, now).0;
      && e.issued == s.issued && m in e.matches && e.matches[m].connection == s.matches[m].connection
      && (e.matches[m].phase != s.matches[m].phase ==>
            e.matches[m].phase == Extended(now)
            && e.published == s.published
               + [Event(s.matches[m].a, m, MatchExtended(now)), Event(s.matches[m].b, m, MatchExtended(now))])
  {
    hide Extend;
    if s.Acting(u, socket, m) && s.matches[m].phase.Active? && now < s.matches[m].expiresAt
       && s.matches[m].Other(u) in s.matches[m].extendVotes + {u} {
      CompletionSays(s, u, socket, m, now);
    } else {
      OtherVoteSays(s, u, socket, m, now);
    }
  }

  lemma ExtendElsewhere(s: Keyspace, u: UserId, socket: SocketId, m: MatchId, now: Millis, n: MatchId)
    requires n in s.matches && n != m
    ensures SameState(s, Extend(s, u, socket, m, now).0, n)
  {}

  /** The record shows that the step has extended the match, and both are told when. */
  lemma ExtensionTold(s: Keyspace, u: UserId, socket: SocketId, m: MatchId, now: Millis, n: MatchId)
    requires LapseInv(s) && n in s.matches
    ensures var e := Extend(s, u, socket, m, now).0;
      && n in e.matches && e.matches[n].connection == s.matches[n].connection
      && (e.matches[n].phase != s.matches[n].phase ==>
            e.matches[n].phase.Extended? && BothTold(e, n, MatchExtended(e.matches[n].phase.at)))
  {
    hide LapseInv, BothTold, Extend;
    PairOfRecord(s, n);
    var e := Extend(s, u, socket, m, now).0;
    if n == m {
      ExtendSays(s, u, socket, m, now);
      if e.matches[n].phase != s.matches[n].phase { BroadcastTells(s, e, n, MatchExtended(now)); }
    } else {
      ExtendElsewhere(s, u, socket, m, now, n);
    }
  }

  lemma CreationTold(s: Keyspace, m: MatchId, c: ConnectionId, n: MatchId)
    requires LapseInv(s) && n in s.matches
    ensures var (e, reply) := PublishConnection(s, m, c);
      && n in e.matches && e.matches[n].phase == s.matches[n].phase
      && (e.matches[n].connection != s.matches[n].connection ==>
            e.matches[n].connection.Some? && BothTold(e, n, ConnectionCreated(e.matches[n].connection.value)))
  {
    hide LapseInv, BothTold;
    PairOfRecord(s, n);
    var e := PublishConnection(s, m, c).0;
    if e.matches[n].connection != s.matches[n].connection { BroadcastTells(s, e, n, ConnectionCreated(c)); }
  }

  lemma ReturnKeepsState(s: Keyspace, u: UserId, socket: SocketId, m: MatchId, now: Millis, n: MatchId)
    requires n in s.matches
    ensures SameState(s, Reconnect(s, u, socket, m, now).0, n)
  {}

  lemma VoteKeepsState(s: Keyspace, u: UserId, socket: SocketId, m: MatchId, now: Millis, n: MatchId)
    requires n in s.matches
    ensures SameState(s, ConnectVote(s, u, socket, m, now).0, n)
  {}

  lemma DisconnectKeepsState(s: Keyspace, u: UserId, socket: SocketId, now: Millis, n: MatchId)
    requires n in s.matches
    ensures SameState(s, Disconnect(s, u, socket, now).0, n)
  {}

  /** The match is still there, as far extended and as connected as before. */
  predicate SameState(s: Keyspace, e: Keyspace, n: MatchId)
    requires n in s.matches
  {
    n in e.matches && e.matches[n].phase == s.matches[n].phase && e.matches[n].connection == s.matches[n].connection
  }

  lemma FinishTells(s: Keyspace, m: MatchId, reason: Reason)
    requires LapseInv(s) && m in s.matches
    ensures BothTold(Finish(s, m, reason), m, MatchEnded(reason)) && m !in Finish(s, m, reason).matches
    ensures forall n | n in s.matches && n != m :: SameState(s, Finish(s, m, reason), n)
  {
    hide LapseInv, BothTold;
    PairOfRecord(s, m);
    BroadcastTells(s, Finish(s, m, reason), m, MatchEnded(reason));
  }

  /** What a step makes of the state of match `n`, both are told. */
  ghost predicate Reports(s: Keyspace, t: Step, e: Keyspace, n: MatchId)
    requires n in s.matches
  {
    if n in e.matches then
      && (e.matches[n].phase != s.matches[n].phase ==>
            e.matches[n].phase.Extended? && BothTold(e, n, MatchExtended(e.matches[n].phase.at)))
      && (e.matches[n].connection != s.matches[n].connection ==>
            e.matches[n].connection.Some? && BothTold(e, n, ConnectionCreated(e.matches[n].connection.value)))
    else t.LapseMatch? || (Ends(t) && BothTold(e, n, MatchEnded(ReasonOf(t))))
  }

  lemma EndReports(s: Keyspace, t: Step, n: MatchId)
    requires LapseInv(s) && Ends(t) && n in s.matches
    ensures Reports(s, t, Apply(s, t).0, n)
  {
    hide Apply, LapseInv, Finish, BothTold;
    EndOutcome(s, t);
    if Apply(s, t).1 == 1 { FinishTells(s, t.m, ReasonOf(t)); }
  }

  lemma RewriteReports(s: Keyspace, t: Step, n: MatchId)
    requires LapseInv(s) && Rewrites(t) && n in s.matches
    ensures Reports(s, t, Apply(s, t).0, n)
  {
    hide LapseInv, BothTold, Extend, PublishConnection, Reconnect, ConnectVote, Disconnect, Claim, End, EndForUser, Expire,
         GraceExpire;
    match t
    case DoExtend(u, socket, m, now) => ExtensionTold(s, u, socket, m, now, n);
    case DoPublishConnection(m, c) => CreationTold(s, m, c, n);
    case DoReconnect(u, socket, m, now) => ReturnKeepsState(s, u, socket, m, now, n);
    case DoConnectVote(u, socket, m, now) => VoteKeepsState(s, u, socket, m, now, n);
    case DoDisconnect(u, socket, now) => DisconnectKeepsState(s, u, socket, now, n);
  }

  lemma QuietReports(s: Keyspace, t: Step, n: MatchId)
    requires LapseInv(s) && Legal(s, t) && !Ends(t) && !Rewrites(t) && n in s.matches
    ensures Reports(s, t, Apply(s, t).0, n)
  {
    RecordAt(s, n);
    hide LapseInv, WellFormed, BothTold, Extend, PublishConnection, Reconnect, ConnectVote, Disconnect, End, EndForUser, Expire,
         GraceExpire;
  }

  lemma StepReports(s: Keyspace, t: Step, n: MatchId)
    requires LapseInv(s) && Legal(s, t) && n in s.matches
    ensures Reports(s, t, Apply(s, t).0, n)
  {
    hide Apply, LapseInv, BothTold, Reports;
    if Ends(t) { EndReports(s, t, n); } else if Rewrites(t) { RewriteReports(s, t, n); } else { QuietReports(s, t, n); }
  }

  /** A fresh match begins active, unconnected, and announced. */
  lemma FreshReports(s: Keyspace, t: Step, n: MatchId)
    requires LapseInv(s) && Q.RecentOk(s) && Legal(s, t) && n !in s.issued && n in Apply(s, t).0.issued
    ensures var e := Apply(s, t).0;
      FoundTold(e, n) && n in e.matches && e.matches[n].phase.Active? && e.matches[n].connection.None?
  {
    hide Apply, LapseInv, Q.RecentOk, Q.MayMeet, FoundTold;
    Q.IssuedExactlyByClaims(s, t);
    if n in s.matches { RecordAt(s, n); }
    Q.MatchedExactlyWhenWaiting(s, t, n);
    ClaimTells(s, t);
  }

  /** The converse of EncounterLog: whatever has become of a match, its participants have been told. */
  lemma StepTells(s: Keyspace, t: Step, m: MatchId)
    requires LapseInv(s) && Q.RecentOk(s) && Legal(s, t) && NewsOf(s, m)
    ensures NewsOf(Apply(s, t).0, m)
    ensures m in s.issued && EndTold(s, m) ==> EndTold(Apply(s, t).0, m)
    ensures m in s.matches && m !in Apply(s, t).0.matches && !t.LapseMatch? ==>
      Ends(t) && BothTold(Apply(s, t).0, m, MatchEnded(ReasonOf(t)))
  {
    hide Apply, LapseInv, Q.RecentOk, FoundTold, BothTold;
    var e := Apply(s, t).0;
    LogOnlyGrows(s, t, m);
    StepKeeps(s, t);
    if m in s.matches { RecordAt(s, m); }
    if m in e.matches { RecordAt(e, m); }
    if m in s.issued {
      StillTold(s, e, m);
      if m in s.matches { StepReports(s, t, m); }
    } else if m in e.issued {
      FreshReports(s, t, m);
    }
    hide WellFormed, L.Evolves;
    if m in s.issued && EndTold(s, m) {
      var reason :| BothTold(s, m, MatchEnded(reason));
      assert BothTold(e, m, MatchEnded(reason));
    }
  }

  /** Over every run: each match ever claimed was found by both with one offerer; an extension and a
      connection that the record shows were told to both; and a match that is over was told to both
      as ended, unless its key lapsed. */
  lemma {:induction false} EverythingIsTold(s: Keyspace, ts: seq<Step>, m: MatchId)
    requires LapseInv(s) && Q.RecentOk(s) && LegalRun(s, ts) && NewsOf(s, m)
    requires forall t | t in ts :: t != LapseMatch(m)
    requires m in s.issued && m !in s.matches ==> EndTold(s, m)
    ensures NewsOf(Run(s, ts), m)
    ensures m in Run(s, ts).issued && m !in Run(s, ts).matches ==> EndTold(Run(s, ts), m)
    decreases |ts|
  {
    if ts != [] {
      var t := ts[0];
      hide Apply, LapseInv, Q.RecentOk, NewsOf, BothTold;
      var e := Apply(s, t).0;
      assert t in ts;
      StepKeeps(s, t);
      StepTells(s, t, m);
      Q.EntryChangesExactly(s, t, 0);
      if m in e.issued && m !in e.matches { EndIsTold(s, t, m); }
      assert forall x | x in ts[1..] :: x in ts;
      EverythingIsTold(e, ts[1..], m);
    }
  }

  lemma EndIsTold(s: Keyspace, t: Step, m: MatchId)
    requires LapseInv(s) && Q.RecentOk(s) && Legal(s, t) && NewsOf(s, m) && t != LapseMatch(m)
    requires m in s.issued && m !in s.matches ==> EndTold(s, m)
    requires m in Apply(s, t).0.issued && m !in Apply(s, t).0.matches
    ensures EndTold(Apply(s, t).0, m)
  {
    hide LapseInv, Q.RecentOk, NewsOf, BothTold, Connect, Heartbeat, Enqueue, LeaveQueue, CleanupQueued, Claim, Reconnect, Relay,
         Extend, ConnectVote, PublishConnection, Disconnect, End, EndForUser, Expire, GraceExpire;
    StepTells(s, t, m);
    if m !in s.issued {
      FreshReports(s, t, m);
    } else if m in s.matches {
      assert t.LapseMatch? ==> Apply(s, t).0.matches == s.matches - {t.m};
    }
  }
}

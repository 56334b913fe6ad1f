/** Timers against participants, and the sweeper that drains the two deadline indexes. */
module EncounterRaces {
  import opened Basics
  import opened Encounter
  import opened EncounterInvariants

  // ---- races ----

  /** Extend against expiry. Both orders leave the same keyspace exactly when it is not the case
      that this vote completes the pair before the deadline by its own clock while the sweeper's
      clock is already past it. Past the deadline on both clocks, Extend never wins. */
  lemma ExtendAgainstExpiry(s: Keyspace, u: UserId, socket: SocketId, m: MatchId, extendAt: Millis, sweepAt: Millis)
    requires LapseInv(s) && s.Acting(u, socket, m) && s.matches[m].phase.Active?
    ensures var r := s.matches[m];
      Expire(Extend(s, u, socket, m, extendAt).0, m, sweepAt).0 == Extend(Expire(s, m, sweepAt).0, u, socket, m, extendAt).0
      <==> !(extendAt < r.expiresAt <= sweepAt && r.Other(u) in r.extendVotes)
    ensures s.matches[m].expiresAt <= extendAt ==> Extend(s, u, socket, m, extendAt) == (s, -1)
  {
    RecordAt(s, m);
    InvAt(s, 0, m, (0, 0));
    var r := s.matches[m];
    var first := Extend(s, u, socket, m, extendAt).0;
    if extendAt < r.expiresAt <= sweepAt {
      assert m !in Expire(s, m, sweepAt).0.matches;
      if r.Other(u) in r.extendVotes {
        assert m in Expire(first, m, sweepAt).0.matches;
      } else {
        var f := Finish(s, m, Expired);
        assert Finish(first, m, Expired).matches == f.matches;
      }
    }
  }

  /** Grace against return: at any instant a disconnected participant can come back exactly when
      the sweeper would not end the match over that absence. */
  lemma ReconnectAgainstGrace(s: Keyspace, u: UserId, socket: SocketId, m: MatchId, now: Millis)
    requires LapseInv(s) && s.Acting(u, socket, m) && u in s.matches[m].disconnected
    ensures Reconnect(s, u, socket, m, now).1 == 1 <==> GraceExpire(s, m, u, now).1 == 0
    ensures GraceExpire(s, m, u, now).1 == 1 ==> m !in GraceExpire(s, m, u, now).0.matches
    ensures Reconnect(s, u, socket, m, now).1 == 1 ==> GraceExpire(Reconnect(s, u, socket, m, now).0, m, u, now).1 == 0
  {
    RecordAt(s, m);
    InvAt(s, u, m, (m, u));
  }

  // ---- the sweeper ----

  ghost function Due<K>(index: map<K, Millis>, now: Millis): set<K> {
    set k | k in index && index[k] <= now
  }

  const SWEEP_LIMIT := 100

  predicate Distinct<K(==)>(s: seq<K>) {
    forall i, j | 0 <= i < j < |s| :: s[i] != s[j]
  }

  /** ZRANGEBYSCORE -inf now LIMIT: distinct due entries, earliest first, all of them when they fit. */
  ghost predicate IsSelection<K(!new)>(sel: seq<K>, index: map<K, Millis>, now: Millis, limit: nat) {
    && Distinct(sel) && |sel| <= limit
    && (forall k | k in sel :: k in Due(index, now))
    && (|sel| < limit ==> forall k | k in Due(index, now) :: k in sel)
    && (forall i, j | 0 <= i < j < |sel| :: sel[i] in index && sel[j] in index && index[sel[i]] <= index[sel[j]])
    && (forall k, x | k in sel && x in Due(index, now) && x !in sel :: index[k] <= index[x])
  }

  function ExpireAll(s: Keyspace, ids: seq<MatchId>, now: Millis): Keyspace
    decreases |ids|
  {
    if ids == [] then s else ExpireAll(Expire(s, ids[0], now).0, ids[1..], now)
  }

  function GraceExpireAll(s: Keyspace, ks: seq<(MatchId, UserId)>, now: Millis): Keyspace
    decreases |ks|
  {
    if ks == [] then s else GraceExpireAll(GraceExpire(s, ks[0].0, ks[0].1, now).0, ks[1..], now)
  }

  lemma FinishRemoves(s: Keyspace, m: MatchId)
    requires m in s.matches
    ensures forall reason ::
      var e := Finish(s, m, reason);
      && e.matches == s.matches - {m} && e.deadlines == s.deadlines - {m}
      && e.graces == s.graces - {(m, s.matches[m].a), (m, s.matches[m].b)}
  {}

  /** A due deadline entry is gone after its script, whatever happened since it was selected:
      either it starts a real ending, or it was an orphan. */
  lemma ExpireDrains(s: Keyspace, m: MatchId, now: Millis)
    requires LapseInv(s)
    ensures var e := Expire(s, m, now).0;
      && LapseInv(e) && m !in Due(e.deadlines, now)
      && (m in Due(s.deadlines, now) ==> e.deadlines == s.deadlines - {m} && m !in e.matches)
      && (m !in Due(s.deadlines, now) && m in s.matches ==> e == s)
      && e.matches.Keys <= s.matches.Keys
      && e.graces.Keys <= s.graces.Keys && (forall k | k in e.graces :: e.graces[k] == s.graces[k])
      && (forall n | n != m && n in s.matches :: n in e.matches && e.matches[n] == s.matches[n])
  {
    StepKeeps(s, DoExpire(m, now));
    InvAt(s, 0, m, (0, 0));
    if m in s.matches { FinishRemoves(s, m); }
    hide LapseInv, WellFormed, UserOk, GraceOk, Apply, Finish;
  }

  lemma GraceDrains(s: Keyspace, m: MatchId, u: UserId, now: Millis)
    requires LapseInv(s)
    ensures var e := GraceExpire(s, m, u, now).0;
      && LapseInv(e) && (m, u) !in Due(e.graces, now)
      && ((m, u) in Due(s.graces, now) ==> m !in e.matches)
      && ((m, u) !in Due(s.graces, now) ==> e == s)
      && e.graces.Keys <= s.graces.Keys && (forall k | k in e.graces :: e.graces[k] == s.graces[k])
      && e.deadlines.Keys <= s.deadlines.Keys && (forall n | n in e.deadlines :: e.deadlines[n] == s.deadlines[n])
      && (forall n | n != m && n in s.matches :: n in e.matches && e.matches[n] == s.matches[n])
  {
    StepKeeps(s, DoGraceExpire(m, u, now));
    InvAt(s, u, m, (m, u));
    if m in s.matches { RecordAt(s, m); }
    hide LapseInv, UserOk, MatchOk, Apply;
  }

  lemma {:induction false} ExpireAllDrains(s: Keyspace, ids: seq<MatchId>, now: Millis)
    requires LapseInv(s) && Distinct(ids) && forall m | m in ids :: m in Due(s.deadlines, now)
    ensures var e := ExpireAll(s, ids, now);
      && LapseInv(e)
      && Due(e.deadlines, now) == Due(s.deadlines, now) - (set m | m in ids)
      && (forall m | m in ids :: m !in e.matches) && e.matches.Keys <= s.matches.Keys
      && e.graces.Keys <= s.graces.Keys && (forall k | k in e.graces :: e.graces[k] == s.graces[k])
      && (forall n | n !in ids && n in s.matches :: n in e.matches && e.matches[n] == s.matches[n])
    decreases |ids|
  {
    if ids != [] {
      var e := Expire(s, ids[0], now).0;
      ExpireDrains(s, ids[0], now);
      assert ids == [ids[0]] + ids[1..] && ids[0] !in ids[1..];
      assert Due(e.deadlines, now) == Due(s.deadlines, now) - {ids[0]};
      ExpireAllDrains(e, ids[1..], now);
    }
  }

  lemma {:induction false} GraceExpireAllDrains(s: Keyspace, ks: seq<(MatchId, UserId)>, now: Millis)
    requires LapseInv(s)
    ensures var e := GraceExpireAll(s, ks, now);
      && LapseInv(e)
      && Due(e.graces, now) <= Due(s.graces, now) - (set k | k in ks)
      && Due(e.deadlines, now) <= Due(s.deadlines, now)
      && (forall n | n in s.matches && (forall k | k in ks :: k in Due(s.graces, now) ==> k.0 != n) ::
            n in e.matches && e.matches[n] == s.matches[n])
    decreases |ks|
  {
    if ks != [] {
      var e := GraceExpire(s, ks[0].0, ks[0].1, now).0;
      GraceDrains(s, ks[0].0, ks[0].1, now);
      assert ks == [ks[0]] + ks[1..] && ks[0] == (ks[0].0, ks[0].1);
      assert Due(e.graces, now) <= Due(s.graces, now) - {ks[0]};
      assert Due(e.deadlines, now) <= Due(s.deadlines, now);
      GraceExpireAllDrains(e, ks[1..], now);
      forall n | n in s.matches && (forall k | k in ks :: k in Due(s.graces, now) ==> k.0 != n)
        ensures n in e.matches && e.matches[n] == s.matches[n]
        ensures forall k | k in ks[1..] :: k in Due(e.graces, now) ==> k.0 != n
      {
        assert ks[0] in ks;
      }
    }
  }

  /** One tick of the sweeper: the selection of the second index is made after the first pass. */
  datatype Tick = Tick(matches: seq<MatchId>, graces: seq<(MatchId, UserId)>)

  function Sweep(s: Keyspace, t: Tick, now: Millis): Keyspace {
    GraceExpireAll(ExpireAll(s, t.matches, now), t.graces, now)
  }

  ghost predicate IsTick(s: Keyspace, t: Tick, now: Millis) {
    && IsSelection(t.matches, s.deadlines, now, SWEEP_LIMIT)
    && IsSelection(t.graces, ExpireAll(s, t.matches, now).graces, now, SWEEP_LIMIT)
  }

  function Left(n: nat, k: nat): nat { if n <= k then 0 else n - k }

  lemma {:induction false} CardinalityOfDistinct<K>(s: seq<K>)
    requires Distinct(s)
    ensures |set k | k in s| == |s|
  {
    if s != [] {
      assert s == [s[0]] + s[1..] && s[0] !in s[1..];
      CardinalityOfDistinct(s[1..]);
      assert (set k | k in s) == (set k | k in s[1..]) + {s[0]};
    }
  }

  lemma SelectionShrinks<K(!new)>(sel: seq<K>, index: map<K, Millis>, now: Millis, limit: nat, rest: set<K>)
    requires IsSelection(sel, index, now, limit) && rest <= Due(index, now) - (set k | k in sel)
    ensures |rest| <= Left(|Due(index, now)|, limit)
  {
    var chosen := set k | k in sel;
    CardinalityOfDistinct(sel);
    assert chosen <= Due(index, now);
    assert Due(index, now) == chosen + (Due(index, now) - chosen);
    SubsetSize(rest, Due(index, now) - chosen);
    if |sel| < limit { assert rest == {}; }
  }

  /** Each tick removes every due entry it selects, so both backlogs shrink by a full page, and
      it touches no match that neither of its timers has reached. */
  lemma SweepProgress(s: Keyspace, t: Tick, now: Millis)
    requires LapseInv(s) && IsTick(s, t, now)
    ensures var e := Sweep(s, t, now);
      && LapseInv(e)
      && |Due(e.deadlines, now)| <= Left(|Due(s.deadlines, now)|, SWEEP_LIMIT)
      && |Due(e.graces, now)| <= Left(|Due(s.graces, now)|, SWEEP_LIMIT)
      && (forall n | n in s.matches && n !in Due(s.deadlines, now) && (forall u :: (n, u) !in Due(s.graces, now)) ::
            n in e.matches && e.matches[n] == s.matches[n])
  {
    var mid := ExpireAll(s, t.matches, now);
    ExpireAllDrains(s, t.matches, now);
    GraceExpireAllDrains(mid, t.graces, now);
    var e := Sweep(s, t, now);
    SelectionShrinks(t.matches, s.deadlines, now, SWEEP_LIMIT, Due(e.deadlines, now));
    SelectionShrinks(t.graces, mid.graces, now, SWEEP_LIMIT, Due(e.graces, now));
    SubsetSize(Due(mid.graces, now), Due(s.graces, now));
    forall n | n in s.matches && n !in Due(s.deadlines, now) && (forall u :: (n, u) !in Due(s.graces, now))
      ensures n in e.matches && e.matches[n] == s.matches[n]
    {
      forall k | k in t.graces && k in Due(mid.graces, now) ensures k.0 != n { assert k == (k.0, k.1) && k in Due(s.graces, now); }
    }
  }

  ghost predicate AreTicks(s: Keyspace, ts: seq<Tick>, now: Millis)
    decreases |ts|
  {
    ts != [] ==> IsTick(s, ts[0], now) && AreTicks(Sweep(s, ts[0], now), ts[1..], now)
  }

  function SweepAll(s: Keyspace, ts: seq<Tick>, now: Millis): Keyspace
    decreases |ts|
  {
    if ts == [] then s else SweepAll(Sweep(s, ts[0], now), ts[1..], now)
  }

  /** No starvation behind the page limit: at a fixed time, after k ticks at most the backlog
      minus 100 k is left of either index, so enough ticks end every match that is due. */
  lemma {:induction false} SweepsDrain(s: Keyspace, ts: seq<Tick>, now: Millis)
    requires LapseInv(s) && AreTicks(s, ts, now)
    ensures var e := SweepAll(s, ts, now);
      && LapseInv(e)
      && |Due(e.deadlines, now)| <= Left(|Due(s.deadlines, now)|, 100 * |ts|)
      && |Due(e.graces, now)| <= Left(|Due(s.graces, now)|, 100 * |ts|)
    decreases |ts|
  {
    if ts != [] {
      SweepProgress(s, ts[0], now);
      SweepsDrain(Sweep(s, ts[0], now), ts[1..], now);
    }
  }

  lemma DrainedMeansEnded(s: Keyspace, now: Millis, m: MatchId)
    requires LapseInv(s) && Due(s.deadlines, now) == {} && Due(s.graces, now) == {} && m in s.matches
    ensures s.matches[m].phase.Active? ==> now < s.matches[m].expiresAt
    ensures forall u | u in s.matches[m].disconnected :: now < s.matches[m].disconnected[u]
  {
    InvAt(s, 0, m, (0, 0));
    assert m !in Due(s.deadlines, now);
    forall u | u in s.matches[m].disconnected ensures now < s.matches[m].disconnected[u] {
      InvAt(s, u, m, (m, u));
      assert (m, u) !in Due(s.graces, now);
    }
  }
}

/** Moments over the tables of connections and blocks: every transaction on those tables is one step
    of the feed, and none that runs without interference misses a row. */
module Sharing {
  import opened Basics
  import opened Moments
  import D = Relations
  import E = Encounter

  /** The database: connections, encounters, blocks and reports, and the moments beside them. */
  datatype Site = Site(
    d: D.Tables, now: Millis, moments: map<MomentId, Moment>, audience: set<(MomentId, ConnectionId)>, used: set<MomentId>)

  /** What the moments queries see of it. */
  function View(s: Site): Feed { Feed(s.now, D.Rows(s.d), s.d.blocks, s.moments, s.audience, s.used) }

  datatype Transaction =
    | Remove(u: UserId, c: ConnectionId, now: Millis)
    | Block(u: UserId, target: UserId, now: Millis)
    | Unblock(u: UserId, target: UserId)
    | Persist(st: E.MatchState, newId: ConnectionId)
    | Report(reporter: UserId, target: UserId, st: E.MatchState, category: string)
    | OfMoments(t: Step)

  /** Publishing, deleting, cleaning up, and time passing. */
  predicate IsMomentStep(t: Step) { t.DoPublish? || t.DoDelete? || t.DoCleanup? || t.Tick? }

  ghost predicate Runs(s: Site, t: Transaction, e: Site) {
    match t
    case Remove(u, c, now) => e == s.(d := D.Remove(s.d, u, c, now).0)
    case Block(u, target, now) => e == s.(d := D.Block(s.d, u, target, now).0)
    case Unblock(u, target) => e == s.(d := D.Unblock(s.d, u, target))
    case Persist(st, newId) =>
      && newId !in s.d.connections && D.SamePair(s.d, st) && e == s.(d := e.d)
      && exists id :: D.Persists(s.d, st, newId, e.d, id)
    case Report(reporter, target, st, category) => e == s.(d := D.ReportMatch(s.d, reporter, target, st, category).0)
    case OfMoments(step) => IsMomentStep(step) && Legal(View(s), step) && e.d == s.d && View(e) == Apply(View(s), step)
  }

  lemma NoStep(f: Feed)
    ensures Legal(f, Tick(0)) && Thorough(f, Tick(0)) && Apply(f, Tick(0)) == f
  {}

  lemma RemovalIsStep(s: Site, u: UserId, c: ConnectionId, now: Millis) returns (step: Step)
    ensures Legal(View(s), step) && Thorough(View(s), step)
    ensures View(s.(d := D.Remove(s.d, u, c, now).0)) == Apply(View(s), step)
  {
    D.RemovalAsSeenElsewhere(s.d, u, c, now);
    if D.Remove(s.d, u, c, now).1 {
      step := DoRemove(c, u);
    } else {
      NoStep(View(s));
      step := Tick(0);
      assert EndRows(D.Rows(s.d), {}) == D.Rows(s.d);
    }
  }

  /** An undisturbed block ends every row of its pair, so none that a moment is shared through is missed. */
  lemma BlockIsThorough(s: Site, u: UserId, target: UserId, now: Millis)
    requires D.Integrity(s.d) && u != target
    ensures var step := DoBlock(u, target, D.RowsOfPair(s.d, Pair(u, target)));
      && Legal(View(s), step) && Thorough(View(s), step)
      && View(s.(d := D.Block(s.d, u, target, now).0)) == Apply(View(s), step)
  {
    D.BlockAsSeenElsewhere(s.d, u, target, now);
    forall c ensures c in D.RowsOfPair(s.d, Pair(u, target)) <==> c in D.Rows(s.d) && D.Rows(s.d)[c].Has(u) && D.Rows(s.d)[c].Has(target) {
      D.PairAsSeenElsewhere(s.d, u, target, c);
    }
    hide D.Integrity, D.EndPair, D.Rows, D.RowsOfPair;
  }

  lemma PersistIsStep(s: Site, st: E.MatchState, newId: ConnectionId, e: Site) returns (step: Step)
    requires D.Integrity(s.d) && Runs(s, Persist(st, newId), e)
    ensures D.Integrity(e.d) && Legal(View(s), step) && Thorough(View(s), step) && View(e) == Apply(View(s), step)
  {
    var id :| D.Persists(s.d, st, newId, e.d, id);
    D.PersistKeeps(s.d, st, newId, e.d, id);
    D.PersistAsSeenElsewhere(s.d, st, newId, e.d, id);
    NoStep(View(s));
    step := if D.Rows(e.d) == D.Rows(s.d) then Tick(0) else DoConnect(newId, Conn(Pair(st.a, st.b).0, Pair(st.a, st.b).1, false));
  }

  lemma UnblockKeeps(d: D.Tables, u: UserId, target: UserId)
    requires D.Integrity(d)
    ensures D.Integrity(D.Unblock(d, u, target))
  {
    var e := D.Unblock(d, u, target);
    forall c ensures D.RowOk(e, c) { assert D.RowOk(d, c); }
    forall c, x ensures D.RowsApart(e, c, x) { assert D.RowsApart(d, c, x); }
  }

  /** Every transaction is one legal step of the feed that misses no row. */
  lemma IsStep(s: Site, t: Transaction, e: Site) returns (step: Step)
    requires D.Integrity(s.d) && Runs(s, t, e)
    ensures D.Integrity(e.d) && Legal(View(s), step) && Thorough(View(s), step) && View(e) == Apply(View(s), step)
  {
    hide D.Integrity, D.RowOk, D.RowsApart, D.Persists, D.Rows, Thorough, Legal;
    NoStep(View(s));
    match t
    case Remove(u, c, now) => D.RemoveKeeps(s.d, u, c, now); step := RemovalIsStep(s, u, c, now);
    case Block(u, target, now) =>
      D.BlockKeeps(s.d, u, target, now);
      if u == target {
        step := Tick(0);
      } else {
        BlockIsThorough(s, u, target, now);
        step := DoBlock(u, target, D.RowsOfPair(s.d, Pair(u, target)));
      }
    case Unblock(u, target) => UnblockIsStep(s, u, target); step := DoUnblock(u, target);
    case Persist(st, newId) => step := PersistIsStep(s, st, newId, e);
    case Report(r, target, st, category) => ReportIsNoStep(s, r, target, st, category); step := Tick(0);
    case OfMoments(own) => MomentStepIsThorough(s, own); step := own;
  }

  lemma UnblockIsStep(s: Site, u: UserId, target: UserId)
    requires D.Integrity(s.d)
    ensures D.Integrity(D.Unblock(s.d, u, target))
    ensures Legal(View(s), DoUnblock(u, target)) && Thorough(View(s), DoUnblock(u, target))
    ensures View(s.(d := D.Unblock(s.d, u, target))) == Apply(View(s), DoUnblock(u, target))
  {
    UnblockKeeps(s.d, u, target);
    assert D.Rows(D.Unblock(s.d, u, target)) == D.Rows(s.d);
  }

  lemma ReportIsNoStep(s: Site, reporter: UserId, target: UserId, st: E.MatchState, category: string)
    requires D.Integrity(s.d)
    ensures D.Integrity(D.ReportMatch(s.d, reporter, target, st, category).0)
    ensures View(s.(d := D.ReportMatch(s.d, reporter, target, st, category).0)) == View(s)
  {
    D.ReportKeeps(s.d, reporter, target, st, category);
  }

  lemma MomentStepIsThorough(s: Site, t: Step)
    requires IsMomentStep(t)
    ensures Thorough(View(s), t)
  {}

  // ---- traces ----

  const START := Site(D.Tables(map[], map[], {}, map[]), 0, map[], {}, {})

  ghost predicate Trace(ss: seq<Site>, ts: seq<Transaction>) {
    && |ss| == |ts| + 1 && ss[0] == START
    && forall k | 0 <= k < |ts| :: Runs(ss[k], ts[k], ss[k + 1])
  }

  lemma {:induction false} TraceKeeps(ss: seq<Site>, ts: seq<Transaction>, n: nat)
    requires Trace(ss, ts) && n < |ss|
    ensures D.Integrity(ss[n].d)
  {
    if n > 0 {
      TraceKeeps(ss, ts, n - 1);
      assert Runs(ss[n - 1], ts[n - 1], ss[n]);
      hide D.Integrity, Runs;
      var _ := IsStep(ss[n - 1], ts[n - 1], ss[n]);
    }
  }

  lemma {:induction false} RunMore(f: Feed, steps: seq<Step>, t: Step)
    ensures Run(f, steps + [t]) == Apply(Run(f, steps), t)
    ensures LegalRun(f, steps + [t]) <==> LegalRun(f, steps) && Legal(Run(f, steps), t)
    ensures ThoroughRun(f, steps + [t]) <==> ThoroughRun(f, steps) && Thorough(Run(f, steps), t)
    decreases |steps|
  {
    hide Apply, Legal, Thorough;
    if steps == [] {
      assert steps + [t] == [t];
    } else {
      assert steps + [t] == [steps[0]] + (steps[1..] + [t]);
      RunMore(Apply(f, steps[0]), steps[1..], t);
    }
  }

  /** Any stretch of a trace is a legal and thorough run of the feed. */
  lemma {:induction false} StretchIsRun(ss: seq<Site>, ts: seq<Transaction>, n: nat, k: nat) returns (steps: seq<Step>)
    requires Trace(ss, ts) && n <= k < |ss|
    ensures LegalRun(View(ss[n]), steps) && ThoroughRun(View(ss[n]), steps) && Run(View(ss[n]), steps) == View(ss[k])
    decreases k
  {
    if n == k {
      steps := [];
    } else {
      steps := StretchIsRun(ss, ts, n, k - 1);
      TraceKeeps(ss, ts, k - 1);
      assert Runs(ss[k - 1], ts[k - 1], ss[k]);
      hide Runs, LegalRun, ThoroughRun, Run, Apply, Legal, Thorough;
      var step := IsStep(ss[k - 1], ts[k - 1], ss[k]);
      RunMore(View(ss[n]), steps, step);
      steps := steps + [step];
    }
  }

  /** Visibility never comes back, of the tables themselves: in every trace of removals, blocks,
      unblocks, persisted and reported matches and moments, each running alone, a moment that a
      viewer cannot see after its publication is never seen by that viewer again. */
  lemma HiddenStaysHidden(ss: seq<Site>, ts: seq<Transaction>, n: nat, k: nat, m: MomentId, viewer: UserId)
    requires Trace(ss, ts) && n <= k < |ss|
    requires WasPublished(View(ss[n]), m, viewer) && !View(ss[n]).Visible(m, viewer)
    ensures !View(ss[k]).Visible(m, viewer)
  {
    assert View(START) == Moments.START;
    var before := StretchIsRun(ss, ts, 0, n);
    var after := StretchIsRun(ss, ts, n, k);
    hide LegalRun, ThoroughRun, Run, WasPublished;
    VisibilityNeverComesBack(before, after, m, viewer);
  }
}

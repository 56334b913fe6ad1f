/** Who sees a moment, from its publication on: over any run, in terms of what people did since. */
module Audience {
  import opened Basics
  import opened Moments

  /** `c` joins exactly these two. */
  predicate Between(row: Conn, a: UserId, b: UserId) {
    a != b && ((row.low == a && row.high == b) || (row.low == b && row.high == a))
  }

  /** One of its members removes connection `c`, or a block ends it. */
  predicate EndsRow(f: Feed, t: Step, c: ConnectionId) {
    || (t.DoRemove? && t.c == c && c in f.rows && (t.u == f.rows[c].low || t.u == f.rows[c].high))
    || (t.DoBlock? && c in t.found)
  }

  /** Nobody ends `c` in this run. */
  predicate Lasts(f: Feed, ts: seq<Step>, c: ConnectionId)
    decreases |ts|
  {
    ts != [] ==> !EndsRow(f, ts[0], c) && Lasts(Apply(f, ts[0]), ts[1..], c)
  }

  /** The author does not delete the moment in this run. */
  predicate NotDeleted(ts: seq<Step>, m: MomentId, author: UserId) {
    forall t | t in ts :: t != DoDelete(m, author)
  }

  lemma RowStep(f: Feed, t: Step, c: ConnectionId)
    requires Legal(f, t) && c in f.rows
    ensures var e := Apply(f, t);
      c in e.rows && e.rows[c] == if EndsRow(f, t, c) then f.rows[c].(ended := true) else f.rows[c]
  {}

  /** A connection is open after a run exactly when it was open before and nobody has ended it. */
  lemma {:induction false} OpenWhileItLasts(f: Feed, ts: seq<Step>, c: ConnectionId)
    requires LegalRun(f, ts) && c in f.rows
    ensures var e := Run(f, ts);
      && c in e.rows && (e.rows[c].low, e.rows[c].high) == (f.rows[c].low, f.rows[c].high)
      && (e.rows[c].ended <==> f.rows[c].ended || !Lasts(f, ts, c))
    decreases |ts|
  {
    if ts != [] {
      hide Apply, Legal, EndsRow;
      RowStep(f, ts[0], c);
      OpenWhileItLasts(Apply(f, ts[0]), ts[1..], c);
    }
  }

  /** The moment is there unless it has expired, with the audience it was given. */
  ghost predicate Kept(f: Feed, m: MomentId, author: UserId, expires: Millis, shared: set<ConnectionId>) {
    && WellFormed(f) && m in f.used
    && (m in f.moments ==> f.moments[m] == Moment(author, expires))
    && (f.now < expires ==> m in f.moments && forall c :: (m, c) in f.audience <==> c in shared)
  }

  lemma StepKeepsMoment(f: Feed, t: Step, m: MomentId, author: UserId, expires: Millis, shared: set<ConnectionId>)
    requires Legal(f, t) && Kept(f, m, author, expires, shared) && t != DoDelete(m, author)
    ensures Kept(Apply(f, t), m, author, expires, shared)
  {
    StepKeepsForm(f, t);
    var e := Apply(f, t);
    if e.now < expires {
      forall c ensures (m, c) in e.audience <==> c in shared { assert (m, c).0 == m; }
    }
    hide WellFormed;
  }

  lemma {:induction false} RunKeepsMoment(
    f: Feed, ts: seq<Step>, m: MomentId, author: UserId, expires: Millis, shared: set<ConnectionId>)
    requires LegalRun(f, ts) && Kept(f, m, author, expires, shared) && NotDeleted(ts, m, author)
    ensures Kept(Run(f, ts), m, author, expires, shared)
    decreases |ts|
  {
    if ts != [] {
      hide Apply, Legal, Kept;
      assert ts[0] in ts && forall t | t in ts[1..] :: t in ts;
      StepKeepsMoment(f, ts[0], m, author, expires, shared);
      RunKeepsMoment(Apply(f, ts[0]), ts[1..], m, author, expires, shared);
    }
  }

  lemma PublicationKeeps(f: Feed, m: MomentId, author: UserId)
    requires WellFormed(f) && m !in f.used
    ensures Kept(Publish(f, m, author), m, author, f.now + 86_400_000, Snapshot(f, author))
  {
    var e := Publish(f, m, author);
    forall c ensures (m, c) in e.audience <==> c in Snapshot(f, author) { assert (m, c) in f.audience ==> m in f.used; }
    StepKeepsForm(f, DoPublish(m, author));
  }

  /** Connected, open, and not blocked in either direction. */
  predicate Shares(f: Feed, c: ConnectionId, a: UserId, b: UserId) {
    && c in f.rows && !f.rows[c].ended && Between(f.rows[c], a, b)
    && (a, b) !in f.blocks && (b, a) !in f.blocks
  }

  /** From its publication on, whatever anybody does, and unless the author deletes it: the author
      sees a moment for exactly 24 hours; somebody else sees it within them exactly while a connection
      that the two shared when it was published has been ended by nobody and neither blocks the
      other. A connection made later, or one that was blocked then, never counts. */
  lemma SeenExactly(f: Feed, m: MomentId, author: UserId, viewer: UserId, ts: seq<Step>)
    requires WellFormed(f) && Legal(f, DoPublish(m, author)) && LegalRun(Apply(f, DoPublish(m, author)), ts)
    requires NotDeleted(ts, m, author)
    ensures var p := Apply(f, DoPublish(m, author));
      var e := Run(p, ts);
      e.Visible(m, viewer) <==>
        && e.now < f.now + 86_400_000
        && (viewer == author
            || ((author, viewer) !in e.blocks && (viewer, author) !in e.blocks
                && exists c :: c in f.rows && Shares(f, c, author, viewer) && Lasts(p, ts, c)))
  {
    var p := Apply(f, DoPublish(m, author));
    var e := Run(p, ts);
    PublicationKeeps(f, m, author);
    RunKeepsMoment(p, ts, m, author, f.now + 86_400_000, Snapshot(f, author));
    assert p.rows == f.rows;
    hide Apply, Run, LegalRun, Legal, WellFormed, Lasts, NotDeleted;
    forall c | c in f.rows
      ensures c in e.rows && (e.rows[c].low, e.rows[c].high) == (f.rows[c].low, f.rows[c].high)
      ensures e.rows[c].ended <==> f.rows[c].ended || !Lasts(p, ts, c)
    {
      OpenWhileItLasts(p, ts, c);
    }
    if viewer != author && e.now < f.now + 86_400_000 {
      forall c | c in f.rows
        ensures e.Admits(m, c, viewer) && !e.Blocked(c) <==>
          Shares(f, c, author, viewer) && Lasts(p, ts, c) && (author, viewer) !in e.blocks && (viewer, author) !in e.blocks
      {
        MemberSees(f, e, m, author, viewer, c, Lasts(p, ts, c));
      }
      assert forall c :: e.Admits(m, c, viewer) ==> c in f.rows;
    }
  }

  lemma MemberSees(f: Feed, e: Feed, m: MomentId, author: UserId, viewer: UserId, c: ConnectionId, lasts: bool)
    requires c in f.rows && c in e.rows && (e.rows[c].low, e.rows[c].high) == (f.rows[c].low, f.rows[c].high)
    requires (e.rows[c].ended <==> f.rows[c].ended || !lasts) && viewer != author
    requires (m, c) in e.audience <==> c in Snapshot(f, author)
    ensures e.Admits(m, c, viewer) && !e.Blocked(c) <==>
      Shares(f, c, author, viewer) && lasts && (author, viewer) !in e.blocks && (viewer, author) !in e.blocks
  {}

  /** Deleting is the author's alone and for good: nobody ever sees the moment again, and no other
      moment is touched; anybody else's attempt changes nothing. */
  lemma DeletedForGood(f: Feed, m: MomentId, u: UserId, ts: seq<Step>, n: MomentId, viewer: UserId)
    requires WellFormed(f) && m in f.moments && LegalRun(Apply(f, DoDelete(m, u)), ts)
    ensures u == f.moments[m].author ==> !Run(Apply(f, DoDelete(m, u)), ts).Visible(m, viewer)
    ensures u != f.moments[m].author ==> Apply(f, DoDelete(m, u)) == f
    ensures n != m ==> (Apply(f, DoDelete(m, u)).Visible(n, viewer) <==> f.Visible(n, viewer))
  {
    var e := Apply(f, DoDelete(m, u));
    if u == f.moments[m].author { NeverBack(e, ts, m); }
    if n != m {
      assert forall c :: e.Admits(n, c, viewer) <==> f.Admits(n, c, viewer) by {
        forall c ensures (n, c) in e.audience <==> (n, c) in f.audience { assert (n, c).0 == n; }
      }
      hide WellFormed;
    }
  }

  lemma {:induction false} NeverBack(f: Feed, ts: seq<Step>, m: MomentId)
    requires LegalRun(f, ts) && m in f.used && m !in f.moments
    ensures m !in Run(f, ts).moments
    decreases |ts|
  {
    if ts != [] {
      var e := Apply(f, ts[0]);
      assert m in e.used && m !in e.moments;
      hide Apply, Legal;
      NeverBack(e, ts[1..], m);
    }
  }
}

/** Moments: the audience is a snapshot of the author's connections at publication, visibility is
    decided by a query, and a locked transaction keeps at most three alive per author. */
module Moments {
  import opened Basics

  type MomentId = nat
  type TxId = nat

  const LIFETIME: Millis := 86_400_000
  const QUOTA := 3

  datatype Moment = Moment(author: UserId, expires: Millis)

  /** `used` is history: moment identifiers are never drawn twice. */
  datatype Feed = Feed(
    now: Millis, rows: map<ConnectionId, Conn>, blocks: set<(UserId, UserId)>,
    moments: map<MomentId, Moment>, audience: set<(MomentId, ConnectionId)>, used: set<MomentId>)
  {
    predicate Blocked(c: ConnectionId)
      requires c in rows
    {
      (rows[c].low, rows[c].high) in blocks || (rows[c].high, rows[c].low) in blocks
    }

    predicate Open(c: ConnectionId) { c in rows && !rows[c].ended }

    /** Through this connection the viewer is in the audience. */
    predicate Admits(m: MomentId, c: ConnectionId, viewer: UserId) {
      (m, c) in audience && Open(c) && rows[c].Has(viewer)
    }

    predicate Alive(m: MomentId) { m in moments && now < moments[m].expires }

    /** The visibility query. */
    predicate Visible(m: MomentId, viewer: UserId) {
      Alive(m) && (viewer == moments[m].author || exists c :: c in rows && Admits(m, c, viewer) && !Blocked(c))
    }
  }

  function Snapshot(f: Feed, author: UserId): set<ConnectionId> {
    set c | c in f.rows && f.Open(c) && f.rows[c].Has(author) && !f.Blocked(c)
  }

  function Publish(f: Feed, m: MomentId, author: UserId): Feed {
    f.(moments := f.moments[m := Moment(author, f.now + LIFETIME)],
       audience := f.audience + set c | c in Snapshot(f, author) :: (m, c), used := f.used + {m})
  }

  function Forget(f: Feed, gone: set<MomentId>): Feed {
    f.(moments := f.moments - gone, audience := set p | p in f.audience && p.0 !in gone)
  }

  /** A block commits the rows its UPDATE found, `found`; a row inserted concurrently can be missed. */
  datatype Step =
    | DoPublish(m: MomentId, author: UserId)
    | DoDelete(m: MomentId, author: UserId)
    | DoCleanup
    | DoRemove(c: ConnectionId, u: UserId)
    | DoBlock(u: UserId, target: UserId, found: set<ConnectionId>)
    | DoUnblock(u: UserId, target: UserId)
    | DoConnect(c: ConnectionId, row: Conn)
    | Tick(later: Millis)

  predicate Legal(f: Feed, t: Step) {
    match t
    case DoPublish(m, _) => m !in f.used
    case DoConnect(c, row) => c !in f.rows
    case DoBlock(u, target, found) => forall c | c in found :: c in f.rows && f.rows[c].Has(u) && f.rows[c].Has(target)
    case _ => true
  }

  function Apply(f: Feed, t: Step): Feed {
    match t
    case DoPublish(m, author) => Publish(f, m, author)
    case DoDelete(m, author) => if m in f.moments && f.moments[m].author == author then Forget(f, {m}) else f
    case DoCleanup => Forget(f, set m | m in f.moments && f.moments[m].expires <= f.now)
    case DoRemove(c, u) => if c in f.rows && f.rows[c].Has(u) then f.(rows := EndRows(f.rows, {c})) else f
    case DoBlock(u, target, found) => f.(blocks := f.blocks + {(u, target)}, rows := EndRows(f.rows, found))
    case DoUnblock(u, target) => f.(blocks := f.blocks - {(u, target)})
    case DoConnect(c, row) => f.(rows := f.rows[c := row])
    case Tick(later) => f.(now := f.now + later)
  }

  predicate LegalRun(f: Feed, ts: seq<Step>)
    decreases |ts|
  {
    ts != [] ==> Legal(f, ts[0]) && LegalRun(Apply(f, ts[0]), ts[1..])
  }

  function Run(f: Feed, ts: seq<Step>): Feed
    decreases |ts|
  {
    if ts == [] then f else Run(Apply(f, ts[0]), ts[1..])
  }

  ghost predicate WellFormed(f: Feed) {
    && (forall m | m in f.moments :: m in f.used)
    && (forall m, c | (m, c) in f.audience :: m in f.used && c in f.rows)
  }

  lemma StepKeepsForm(f: Feed, t: Step)
    requires WellFormed(f) && Legal(f, t)
    ensures WellFormed(Apply(f, t))
  {}

  // ---- what hides a moment for good ----

  /** Only a block can be standing between the moment and this viewer. */
  ghost predicate OnlyBlocked(f: Feed, m: MomentId, viewer: UserId) {
    f.Alive(m) && exists c :: f.Admits(m, c, viewer)
  }

  /** Published once, by somebody else. */
  predicate WasPublished(f: Feed, m: MomentId, viewer: UserId) {
    m in f.used && (m in f.moments ==> f.moments[m].author != viewer)
  }

  lemma StaysHidden(f: Feed, t: Step, m: MomentId, viewer: UserId)
    requires WellFormed(f) && Legal(f, t) && WasPublished(f, m, viewer) && !OnlyBlocked(f, m, viewer)
    ensures WasPublished(Apply(f, t), m, viewer) && !OnlyBlocked(Apply(f, t), m, viewer)
  {
    var e := Apply(f, t);
    assert e.Alive(m) ==> f.Alive(m);
    forall c ensures e.Admits(m, c, viewer) ==> f.Admits(m, c, viewer) {
      assert (m, c) in e.audience ==> (m, c) in f.audience;
      assert (m, c) in f.audience ==> c in f.rows;
    }
  }

  lemma {:induction false} HiddenForGood(f: Feed, ts: seq<Step>, m: MomentId, viewer: UserId)
    requires WellFormed(f) && LegalRun(f, ts) && WasPublished(f, m, viewer) && !OnlyBlocked(f, m, viewer)
    ensures !Run(f, ts).Visible(m, viewer)
    decreases |ts|
  {
    if ts == [] {
      assert forall c :: f.Admits(m, c, viewer) ==> OnlyBlocked(f, m, viewer) || !f.Alive(m);
    } else {
      StaysHidden(f, ts[0], m, viewer);
      StepKeepsForm(f, ts[0]);
      HiddenForGood(Apply(f, ts[0]), ts[1..], m, viewer);
    }
  }

  ghost predicate CanComeBack(f: Feed, m: MomentId, viewer: UserId) {
    exists ts :: LegalRun(f, ts) && Run(f, ts).Visible(m, viewer)
  }

  /** A published moment that a viewer cannot see now can be seen again in some continuation
      exactly when it is alive and an audience connection of the viewer is still open, so that a
      block is all that hides it. */
  lemma ComesBackExactlyWhenOnlyBlocked(f: Feed, m: MomentId, viewer: UserId)
    requires WellFormed(f) && WasPublished(f, m, viewer) && !f.Visible(m, viewer)
    ensures CanComeBack(f, m, viewer) <==> OnlyBlocked(f, m, viewer)
  {
    if OnlyBlocked(f, m, viewer) {
      var c :| f.Admits(m, c, viewer);
      var ts := [DoUnblock(f.rows[c].low, f.rows[c].high), DoUnblock(f.rows[c].high, f.rows[c].low)];
      var one := Apply(f, ts[0]);
      var two := Apply(one, ts[1]);
      assert ts[1..] == [ts[1]] && Run(f, ts) == Run(one, [ts[1]]) == two;
      assert LegalRun(f, ts);
      assert two.Admits(m, c, viewer) && !two.Blocked(c);
    } else if CanComeBack(f, m, viewer) {
      var ts :| LegalRun(f, ts) && Run(f, ts).Visible(m, viewer);
      HiddenForGood(f, ts, m, viewer);
    }
  }

  // ---- blocks that miss no row ----

  /** A block whose UPDATE saw every open row of the pair that a moment is shared through. */
  predicate Thorough(f: Feed, t: Step) {
    t.DoBlock? ==> forall p | p in f.audience && f.Open(p.1) && f.rows[p.1].Has(t.u) && f.rows[p.1].Has(t.target) :: p.1 in t.found
  }

  predicate ThoroughRun(f: Feed, ts: seq<Step>)
    decreases |ts|
  {
    ts != [] ==> Thorough(f, ts[0]) && ThoroughRun(Apply(f, ts[0]), ts[1..])
  }

  /** No open audience connection is blocked. */
  ghost predicate Sealed(f: Feed) {
    forall p | p in f.audience && f.Open(p.1) :: !f.Blocked(p.1)
  }

  lemma StepKeepsSealed(f: Feed, t: Step)
    requires WellFormed(f) && Sealed(f) && Legal(f, t) && Thorough(f, t)
    ensures Sealed(Apply(f, t))
  {
    var e := Apply(f, t);
    forall p | p in e.audience && e.Open(p.1) ensures !e.Blocked(p.1) {
      assert p == (p.0, p.1);
    }
  }

  lemma {:induction false} RunKeepsSealed(f: Feed, ts: seq<Step>)
    requires WellFormed(f) && Sealed(f) && LegalRun(f, ts) && ThoroughRun(f, ts)
    ensures WellFormed(Run(f, ts)) && Sealed(Run(f, ts))
    decreases |ts|
  {
    if ts != [] {
      StepKeepsForm(f, ts[0]);
      StepKeepsSealed(f, ts[0]);
      RunKeepsSealed(Apply(f, ts[0]), ts[1..]);
    }
  }

  const START := Feed(0, map[], {}, map[], {}, {})

  /** Visibility never comes back: across removal, blocking, unblocking, reconnecting under a new
      connection and expiry, a moment once invisible to a viewer after publication stays so. */
  lemma VisibilityNeverComesBack(before: seq<Step>, after: seq<Step>, m: MomentId, viewer: UserId)
    requires LegalRun(START, before) && ThoroughRun(START, before)
    requires WasPublished(Run(START, before), m, viewer) && !Run(START, before).Visible(m, viewer)
    requires LegalRun(Run(START, before), after)
    ensures !Run(Run(START, before), after).Visible(m, viewer)
  {
    RunKeepsSealed(START, before);
    var f := Run(START, before);
    forall c: ConnectionId | f.Admits(m, c, viewer) ensures !f.Alive(m) { assert (m, c) in f.audience; }
    HiddenForGood(f, after, m, viewer);
  }

  /** Without that assumption it can: the connection of users 1 and 2 commits after the UPDATE of
      2's block has looked for rows, the moment is published before the block commits, and 2
      later unblocks. */
  lemma MissedRowLetsItComeBack() returns (before: seq<Step>, after: seq<Step>)
    ensures LegalRun(START, before) && LegalRun(Run(START, before), after) && |after| == 2
    ensures var published := Run(START, before);
      var blocked := Apply(published, after[0]);
      && after[0] == DoBlock(2, 1, {}) && after[1] == DoUnblock(2, 1) && !Thorough(published, after[0])
      && published.Visible(7, 2) && !blocked.Visible(7, 2) && WasPublished(blocked, 7, 2)
      && Run(published, after).Visible(7, 2)
  {
    before := [DoConnect(5, Conn(1, 2, false)), DoPublish(7, 1)];
    after := [DoBlock(2, 1, {}), DoUnblock(2, 1)];
    var joined := Apply(START, before[0]);
    var published := Apply(joined, before[1]);
    var blocked := Apply(published, after[0]);
    var unblocked := Apply(blocked, after[1]);
    assert before[1..] == [before[1]] && Run(START, before) == Run(joined, [before[1]]) == published;
    assert after[1..] == [after[1]] && Run(published, after) == Run(blocked, [after[1]]) == unblocked;
    assert published.Admits(7, 5, 2) && unblocked.Admits(7, 5, 2);
    assert unblocked.blocks == {};
    assert blocked.Blocked(5);
  }

  // ---- who is in the audience ----

  /** Straight after publication a moment is visible to its author and to exactly those who share
      an open, unblocked connection with the author at that time. */
  lemma VisibleOnPublication(f: Feed, m: MomentId, author: UserId, viewer: UserId)
    requires WellFormed(f) && m !in f.used
    ensures Publish(f, m, author).Visible(m, viewer) <==>
      viewer == author || exists c :: c in f.rows && f.Open(c) && !f.Blocked(c) && f.rows[c].Has(author) && f.rows[c].Has(viewer)
  {
    var e := Publish(f, m, author);
    forall c ensures (m, c) in e.audience <==> c in Snapshot(f, author) {
      assert (m, c) in f.audience ==> m in f.used;
    }
    assert forall c :: c in e.rows && e.Admits(m, c, viewer) && !e.Blocked(c) <==>
      c in f.rows && f.Open(c) && !f.Blocked(c) && f.rows[c].Has(author) && f.rows[c].Has(viewer);
  }

  // ---- the quota under concurrency ----

  datatype Publishing =
    | Locked(author: UserId, started: Millis)                // SELECT ... FOR UPDATE on the author
    | Inserted(author: UserId, started: Millis, m: MomentId)

  /** `locks` are row locks on users; `started` is what now() means inside a transaction. */
  datatype Board = Board(now: Millis, moments: map<MomentId, Moment>, locks: map<UserId, TxId>, txs: map<TxId, Publishing>)

  function Counted(moments: map<MomentId, Moment>, author: UserId, at: Millis): set<MomentId> {
    set m | m in moments && moments[m].author == author && at < moments[m].expires
  }

  datatype Move =
    | Lock(tx: TxId, author: UserId, started: Millis)
    | Insert(tx: TxId, m: MomentId)
    | Commit(tx: TxId)
    | Rollback(tx: TxId)
    | Drop(gone: set<MomentId>)
    | Pass(later: Millis)

  function Release(b: Board, tx: TxId): Board
    requires tx in b.txs
  {
    b.(locks := b.locks - {b.txs[tx].author}, txs := b.txs - {tx})
  }

  /** The count and the insert run under the lock; a full author is turned away. */
  ghost predicate Moves(b: Board, v: Move, e: Board) {
    match v
    case Lock(tx, author, started) =>
      && tx !in b.txs && author !in b.locks && started <= b.now
      && e == b.(locks := b.locks[author := tx], txs := b.txs[tx := Locked(author, started)])
    case Insert(tx, m) =>
      && tx in b.txs && b.txs[tx].Locked? && m !in b.moments
      && (forall x | x in b.txs && b.txs[x].Inserted? :: b.txs[x].m != m)
      && var p := b.txs[tx];
      e == if |Counted(b.moments, p.author, p.started)| >= QUOTA then Release(b, tx)
           else b.(txs := b.txs[tx := Inserted(p.author, p.started, m)])
    case Commit(tx) =>
      && tx in b.txs && b.txs[tx].Inserted?
      && e == Release(b, tx).(moments := b.moments[b.txs[tx].m := Moment(b.txs[tx].author, b.txs[tx].started + LIFETIME)])
    case Rollback(tx) => tx in b.txs && e == Release(b, tx)
    case Drop(gone) => e == b.(moments := b.moments - gone)
    case Pass(later) => e == b.(now := b.now + later)
  }

  ghost predicate AuthorOk(b: Board, u: UserId) {
    |Counted(b.moments, u, b.now)| <= QUOTA
  }

  ghost predicate TxOk(b: Board, tx: TxId) {
    tx in b.txs ==>
      var p := b.txs[tx];
      && p.author in b.locks && b.locks[p.author] == tx && p.started <= b.now
      && (p.Inserted? ==> p.m !in b.moments && |Counted(b.moments, p.author, p.started)| < QUOTA)
  }

  ghost predicate LockOk(b: Board, u: UserId) {
    u in b.locks ==> b.locks[u] in b.txs && b.txs[b.locks[u]].author == u
  }

  ghost predicate DistinctInserts(b: Board, x: TxId, y: TxId) {
    x in b.txs && y in b.txs && x != y && b.txs[x].Inserted? && b.txs[y].Inserted? ==> b.txs[x].m != b.txs[y].m
  }

  ghost predicate QuotaInv(b: Board) {
    && (forall u :: AuthorOk(b, u)) && (forall x :: TxOk(b, x)) && (forall u :: LockOk(b, u))
    && (forall x, y :: DistinctInserts(b, x, y))
  }

  /** What the invariant says at these points. */
  lemma QuotaAt(b: Board, u: UserId, x: TxId, y: TxId)
    requires QuotaInv(b)
    ensures AuthorOk(b, u) && TxOk(b, x) && LockOk(b, u) && DistinctInserts(b, x, y)
  {
    hide AuthorOk, TxOk, LockOk, DistinctInserts;
  }

  lemma AuthorAfter(b: Board, v: Move, e: Board, u: UserId)
    requires QuotaInv(b) && Moves(b, v, e)
    ensures AuthorOk(e, u)
  {
    QuotaAt(b, u, 0, 0);
    if v.Commit? && b.txs[v.tx].author == u {
      var p := b.txs[v.tx];
      QuotaAt(b, u, v.tx, 0);
      SubsetSize(Counted(e.moments, u, e.now), Counted(b.moments, u, p.started) + {p.m});
    } else {
      SubsetSize(Counted(e.moments, u, e.now), Counted(b.moments, u, b.now));
    }
    hide QuotaInv;
  }

  lemma TxAfter(b: Board, v: Move, e: Board, x: TxId)
    requires QuotaInv(b) && Moves(b, v, e)
    ensures TxOk(e, x)
  {
    QuotaAt(b, 0, x, x);
    if v.Insert? || v.Commit? || v.Rollback? { QuotaAt(b, 0, v.tx, x); }
    if v.Commit? { QuotaAt(b, 0, x, v.tx); }
    hide QuotaInv;
    if x in b.txs && x in e.txs {
      var p := b.txs[x];
      if v.Commit? {
        assert Counted(e.moments, p.author, p.started) == Counted(b.moments, p.author, p.started);
      } else {
        SubsetSize(Counted(e.moments, p.author, p.started), Counted(b.moments, p.author, p.started));
      }
    }
  }

  lemma LocksAfter(b: Board, v: Move, e: Board, u: UserId, x: TxId, y: TxId)
    requires QuotaInv(b) && Moves(b, v, e)
    ensures LockOk(e, u) && DistinctInserts(e, x, y)
  {
    QuotaAt(b, u, x, y);
    if u in b.locks { QuotaAt(b, u, b.locks[u], y); }
    hide QuotaInv, Counted;
  }

  lemma MovesKeepQuota(b: Board, v: Move, e: Board)
    requires QuotaInv(b) && Moves(b, v, e)
    ensures QuotaInv(e)
  {
    hide AuthorOk, TxOk, LockOk, DistinctInserts, Moves;
    forall u ensures AuthorOk(e, u) { AuthorAfter(b, v, e, u); }
    forall x ensures TxOk(e, x) { TxAfter(b, v, e, x); }
    forall u ensures LockOk(e, u) { LocksAfter(b, v, e, u, 0, 0); }
    forall x, y ensures DistinctInserts(e, x, y) { LocksAfter(b, v, e, 0, x, y); }
  }

  const EMPTY_BOARD := Board(0, map[], map[], map[])

  ghost predicate Played(bs: seq<Board>, vs: seq<Move>) {
    && |bs| == |vs| + 1 && bs[0] == EMPTY_BOARD
    && forall k | 0 <= k < |vs| :: Moves(bs[k], vs[k], bs[k + 1])
  }

  /** In every interleaving of publishing transactions, deletions, cleanups and time, an author has
      at most three unexpired moments. */
  lemma {:induction false} AtMostThree(bs: seq<Board>, vs: seq<Move>, n: nat, author: UserId)
    requires Played(bs, vs) && n < |bs|
    ensures |set i | i in bs[n].moments && bs[n].moments[i].author == author && bs[n].now < bs[n].moments[i].expires| <= 3
    ensures QuotaInv(bs[n])
  {
    if n > 0 {
      AtMostThree(bs, vs, n - 1, author);
      assert Moves(bs[n - 1], vs[n - 1], bs[n]);
      MovesKeepQuota(bs[n - 1], vs[n - 1], bs[n]);
    } else {
      assert forall u :: Counted(EMPTY_BOARD.moments, u, 0) == {};
    }
    assert AuthorOk(bs[n], author);
    assert Counted(bs[n].moments, author, bs[n].now)
        == set i | i in bs[n].moments && bs[n].moments[i].author == author && bs[n].now < bs[n].moments[i].expires;
  }

  // ---- the transactions as they run ----

  class MomentStore {
    var rows: map<ConnectionId, Conn>
    var blocks: set<(UserId, UserId)>
    var moments: map<MomentId, Moment>
    var audience: set<(MomentId, ConnectionId)>
    ghost var used: set<MomentId>

    ghost function View(now: Millis): Feed
      reads this
    {
      Feed(now, rows, blocks, moments, audience, used)
    }

    /** The count, the insert and the audience snapshot of one publishing transaction. */
    method PublishMoment(author: UserId, m: MomentId, now: Millis) returns (published: bool)
      requires m !in used
      modifies `moments, `audience, `used
      ensures published <==> |set i | i in old(moments) && old(moments)[i].author == author && now < old(moments)[i].expires| < 3
      ensures View(now) == if published then Publish(old(View(now)), m, author) else old(View(now))
    {
      var active := set i | i in moments && moments[i].author == author && now < moments[i].expires;
      assert active == Counted(moments, author, now);
      if |active| >= 3 { return false; }
      moments := moments[m := Moment(author, now + LIFETIME)];
      audience := audience + set c | c in rows
        && (author == rows[c].low || author == rows[c].high) && !rows[c].ended
        && (rows[c].low, rows[c].high) !in blocks && (rows[c].high, rows[c].low) !in blocks :: (m, c);
      used := used + {m};
      assert audience == Publish(old(View(now)), m, author).audience;
      return true;
    }

    /** Only the author's own moment is deleted, with its audience. */
    method DeleteMoment(m: MomentId, u: UserId, now: Millis) returns (found: bool)
      modifies `moments, `audience
      ensures found <==> m in old(moments) && old(moments)[m].author == u
      ensures View(now) == Apply(old(View(now)), DoDelete(m, u))
    {
      if m !in moments || moments[m].author != u { return false; }
      moments := moments - {m};
      audience := set p | p in audience && p.0 != m;
      return true;
    }

    /** Cleanup deletes what the query already hides, so no viewer notices whether it ran. */
    method Cleanup(now: Millis)
      modifies `moments, `audience
      ensures View(now) == Apply(old(View(now)), DoCleanup)
      ensures forall m, viewer :: View(now).Visible(m, viewer) <==> old(View(now).Visible(m, viewer))
    {
      var gone := set m | m in moments && moments[m].expires <= now;
      moments := moments - gone;
      audience := set p | p in audience && p.0 !in gone;
      ghost var was := old(View(now));
      forall m, viewer ensures View(now).Visible(m, viewer) <==> was.Visible(m, viewer) {
        assert was.Alive(m) ==> forall c :: View(now).Admits(m, c, viewer) <==> was.Admits(m, c, viewer);
      }
    }

    /** The listing holds exactly the visible moments. */
    method List(viewer: UserId, now: Millis) returns (items: set<MomentId>)
      ensures forall m :: m in items <==> View(now).Visible(m, viewer)
    {
      items := set m | m in moments && now < moments[m].expires
        && (moments[m].author == viewer
            || exists p :: p in audience && p.0 == m && p.1 in rows && !rows[p.1].ended
                 && (viewer == rows[p.1].low || viewer == rows[p.1].high)
                 && (rows[p.1].low, rows[p.1].high) !in blocks && (rows[p.1].high, rows[p.1].low) !in blocks);
      ghost var f := View(now);
      forall m ensures m in items <==> f.Visible(m, viewer) {
        if f.Alive(m) {
          assert forall p | p in audience && p.0 == m :: p == (m, p.1);
          assert forall c: ConnectionId :: f.Admits(m, c, viewer) ==> (m, c) in audience;
        }
      }
    }
  }
}

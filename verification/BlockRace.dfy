/** Blocks against claims: eligibility is read from PostgreSQL before the claim script runs in
    Redis, and a block is committed to PostgreSQL before a match is ended in Redis. */
module BlockRace {
  import opened Basics
  import opened Encounter
  import opened EncounterInvariants
  import opened EncounterQueue
  import D = Relations

  /** `checked` are the matching attempts that have read a pair as eligible and not yet claimed. */
  datatype World = World(redis: Keyspace, db: D.Tables, checked: map<nat, (UserId, UserId)>)

  datatype Action =
    | Check(h: nat, a: UserId, b: UserId)
    | ClaimChecked(h: nat, claim: Step)
    | Script(t: Step)
    | CommitBlock(u: UserId, target: UserId, now: Millis)
    | CommitUnblock(u: UserId, target: UserId)

  ghost predicate Next(x: World, a: Action, y: World) {
    match a
    case Check(h, p, q) => p != q && h !in x.checked && !x.db.Blocked((p, q)) && y == x.(checked := x.checked[h := (p, q)])
    case ClaimChecked(h, t) =>
      && h in x.checked && t.DoClaim? && (t.u, t.b) == x.checked[h] && Legal(x.redis, t)
      && y == x.(redis := Apply(x.redis, t).0, checked := x.checked - {h})
    case Script(t) => !t.DoClaim? && Legal(x.redis, t) && y == x.(redis := Apply(x.redis, t).0)
    case CommitBlock(u, target, now) => y == x.(db := D.Block(x.db, u, target, now).0)
    case CommitUnblock(u, target) => y == x.(db := D.Unblock(x.db, u, target))
  }

  predicate Meets(r: Match, u: UserId, v: UserId) { r.Has(u) && r.Has(v) && u != v }

  /** No live match joins a blocked pair. */
  ghost predicate Clean(x: World) {
    forall m | m in x.redis.matches :: !x.db.Blocked((x.redis.matches[m].a, x.redis.matches[m].b))
  }

  /** Only a claim makes a match; no other script changes who is in one. */
  lemma PairsKept(s: Keyspace, t: Step, m: MatchId)
    requires LapseInv(s) && Legal(s, t) && !t.DoClaim? && m in Apply(s, t).0.matches
    ensures m in s.matches
    ensures (Apply(s, t).0.matches[m].a, Apply(s, t).0.matches[m].b) == (s.matches[m].a, s.matches[m].b)
  {
    hide Apply, LapseInv;
    OthersIssueNothing(s, t);
    StepKeeps(s, t);
    RecordAt(s, m);
    RecordAt(Apply(s, t).0, m);
  }

  /** Does this action let a live match and a block of its pair stand together? It is a claim whose
      guards pass for a pair that is blocked by now, or a block of a pair that is in a match. */
  ghost predicate Collides(x: World, a: Action) {
    match a
    case ClaimChecked(_, t) =>
      t.DoClaim? && x.db.Blocked((t.u, t.b)) && Claimable(x.redis, t.u, t.b, t.socket, t.socketB, t.allowRecent)
    case CommitBlock(u, target, _) => exists m :: m in x.redis.matches && Meets(x.redis.matches[m], u, target)
    case _ => false
  }

  /** Blocked pairs stay out of live matches across an action exactly when it is not one of these
      two. The claim script compares nothing with the blocks, so the first is possible. */
  lemma CleanExactlyWithoutCollision(x: World, a: Action, y: World)
    requires LapseInv(x.redis) && Clean(x) && Next(x, a, y)
    ensures Clean(y) <==> !Collides(x, a)
  {
    match a
    case Check(_, _, _) =>
    case ClaimChecked(_, t) => ClaimCollides(x, a, y);
    case Script(t) =>
      hide Apply, LapseInv;
      forall m | m in y.redis.matches ensures !y.db.Blocked((y.redis.matches[m].a, y.redis.matches[m].b)) {
        PairsKept(x.redis, t, m);
      }
    case CommitBlock(u, target, _) =>
      if m :| m in x.redis.matches && Meets(x.redis.matches[m], u, target) {
        assert y.db.Blocked((x.redis.matches[m].a, x.redis.matches[m].b));
      } else {
        forall m | m in x.redis.matches ensures !y.db.Blocked((x.redis.matches[m].a, x.redis.matches[m].b)) {
          RecordAt(x.redis, m);
          assert !Meets(x.redis.matches[m], u, target);
        }
      }
    case CommitUnblock(_, _) =>
  }

  lemma ClaimCollides(x: World, a: Action, y: World)
    requires a.ClaimChecked? && Clean(x) && Next(x, a, y)
    ensures Clean(y) <==> !Collides(x, a)
  {
    var t := a.claim;
    if Apply(x.redis, t).1 == 1 {
      assert y.redis.matches.Keys == x.redis.matches.Keys + {t.m};
      assert (y.redis.matches[t.m].a, y.redis.matches[t.m].b) == (t.u, t.b);
      assert forall m | m in x.redis.matches && m != t.m :: y.redis.matches[m] == x.redis.matches[m];
    }
  }

  // ---- executions ----

  /** Executions start with an empty keyspace over any tables. */
  ghost predicate Execution(ws: seq<World>, acts: seq<Action>) {
    && |ws| == |acts| + 1 && ws[0].redis == EMPTY && ws[0].checked == map[]
    && forall k | 0 <= k < |acts| :: Next(ws[k], acts[k], ws[k + 1])
  }

  lemma {:induction false} RedisKeeps(ws: seq<World>, acts: seq<Action>, n: nat)
    requires Execution(ws, acts) && n < |ws|
    ensures LapseInv(ws[n].redis)
  {
    hide LapseInv, Apply;
    if n == 0 {
      EmptyKeeps();
    } else {
      RedisKeeps(ws, acts, n - 1);
      var a := acts[n - 1];
      assert Next(ws[n - 1], a, ws[n]);
      if a.ClaimChecked? { StepKeeps(ws[n - 1].redis, a.claim); }
      if a.Script? { StepKeeps(ws[n - 1].redis, a.t); }
    }
  }

  lemma EmptyKeeps()
    ensures LapseInv(EMPTY)
  {}

  /** Up to any point, blocked pairs have always stayed out of live matches exactly when no action
      before it was a collision. */
  lemma {:induction false} CleanThroughoutExactlyWithoutCollisions(ws: seq<World>, acts: seq<Action>, n: nat)
    requires Execution(ws, acts) && n < |ws|
    ensures (forall k | 0 <= k <= n :: Clean(ws[k])) <==> (forall k | 0 <= k < n :: !Collides(ws[k], acts[k]))
  {
    if n > 0 {
      CleanThroughoutExactlyWithoutCollisions(ws, acts, n - 1);
      RedisKeeps(ws, acts, n - 1);
      assert Next(ws[n - 1], acts[n - 1], ws[n]);
      if Clean(ws[n - 1]) { CleanExactlyWithoutCollision(ws[n - 1], acts[n - 1], ws[n]); }
      hide Clean, Collides, Next, LapseInv;
    }
  }

  predicate ClaimOf(a: Action, h: nat) { a.ClaimChecked? && a.h == h }

  /** Attempt `h` reads its pair as eligible at `i` and claims it at `j`. */
  predicate Attempt(acts: seq<Action>, i: nat, j: nat, h: nat) {
    && i < j < |acts| && acts[i].Check? && acts[i].h == h && ClaimOf(acts[j], h)
    && forall k | i < k < j :: !ClaimOf(acts[k], h)
  }

  /** `u` blocks `v` between `i` and `j`, and does not take it back. */
  predicate BlockStands(acts: seq<Action>, i: nat, j: nat, u: UserId, v: UserId)
    requires j <= |acts|
  {
    exists p | i < p < j :: Blocks(acts[p], u, v) && forall q | p < q < j :: !Unblocks(acts[q], u, v)
  }

  predicate Blocks(a: Action, u: UserId, v: UserId) { a.CommitBlock? && a.u == u && a.target == v }

  predicate Unblocks(a: Action, u: UserId, v: UserId) { a.CommitUnblock? && a.u == u && a.target == v }

  lemma {:induction false} CheckStays(ws: seq<World>, acts: seq<Action>, i: nat, j: nat, h: nat, k: nat)
    requires Execution(ws, acts) && Attempt(acts, i, j, h) && i < k <= j
    ensures h in ws[k].checked && ws[k].checked[h] == (acts[i].a, acts[i].b)
    decreases k
  {
    assert Next(ws[k - 1], acts[k - 1], ws[k]);
    if k > i + 1 {
      CheckStays(ws, acts, i, j, h, k - 1);
      assert !ClaimOf(acts[k - 1], h);
    }
  }

  lemma {:induction false} BlockedExactlyIfStands(ws: seq<World>, acts: seq<Action>, i: nat, k: nat, u: UserId, v: UserId)
    requires Execution(ws, acts) && i < k <= |acts| && u != v
    requires acts[i].Check? && (u, v) !in ws[i].db.blocks
    ensures (u, v) in ws[k].db.blocks <==> BlockStands(acts, i, k, u, v)
    decreases k
  {
    assert Next(ws[k - 1], acts[k - 1], ws[k]);
    if k > i + 1 {
      BlockedExactlyIfStands(ws, acts, i, k - 1, u, v);
      var last := acts[k - 1];
      if Blocks(last, u, v) {
        assert BlockStands(acts, i, k, u, v);
      } else if BlockStands(acts, i, k - 1, u, v) && !Unblocks(last, u, v) {
        var p :| i < p < k - 1 && Blocks(acts[p], u, v) && forall q | p < q < k - 1 :: !Unblocks(acts[q], u, v);
        assert forall q | p < q < k :: !Unblocks(acts[q], u, v);
      }
    }
  }

  lemma AttemptCollides(ws: seq<World>, acts: seq<Action>, i: nat, j: nat, h: nat)
    requires Execution(ws, acts) && Attempt(acts, i, j, h)
    ensures var t := acts[j].claim;
      && t.DoClaim?
      && (Collides(ws[j], acts[j]) <==>
            && Claimable(ws[j].redis, t.u, t.b, t.socket, t.socketB, t.allowRecent)
            && (BlockStands(acts, i, j, t.u, t.b) || BlockStands(acts, i, j, t.b, t.u)))
  {
    assert Next(ws[i], acts[i], ws[i + 1]) && Next(ws[j], acts[j], ws[j + 1]);
    CheckStays(ws, acts, i, j, h, j);
    var a, b := acts[i].a, acts[i].b;
    BlockedExactlyIfStands(ws, acts, i, j, a, b);
    BlockedExactlyIfStands(ws, acts, i, j, b, a);
  }

  lemma {:induction false} ClaimHasCheck(ws: seq<World>, acts: seq<Action>, j: nat, h: nat, k: nat) returns (i: nat)
    requires Execution(ws, acts) && k <= j < |acts| && ClaimOf(acts[j], h) && h in ws[k].checked
    requires forall n | k <= n < j :: !ClaimOf(acts[n], h)
    ensures Attempt(acts, i, j, h)
    decreases k
  {
    assert k > 0;
    assert Next(ws[k - 1], acts[k - 1], ws[k]);
    if h in ws[k - 1].checked {
      i := ClaimHasCheck(ws, acts, j, h, k - 1);
    } else {
      i := k - 1;
    }
  }

  /** In every execution a claim has an eligibility check `i` that belongs to it, and it collides
      exactly when its guards pass and, since that check, one of the two has blocked the other and
      not taken it back. */
  lemma ClaimCollidesExactlyIfBlockedSinceCheck(ws: seq<World>, acts: seq<Action>, j: nat) returns (i: nat)
    requires Execution(ws, acts) && j < |acts| && acts[j].ClaimChecked?
    ensures Attempt(acts, i, j, acts[j].h)
    ensures var t := acts[j].claim;
      && t.DoClaim?
      && (Collides(ws[j], acts[j]) <==>
            && Claimable(ws[j].redis, t.u, t.b, t.socket, t.socketB, t.allowRecent)
            && (BlockStands(acts, i, j, t.u, t.b) || BlockStands(acts, i, j, t.b, t.u)))
  {
    assert Next(ws[j], acts[j], ws[j + 1]);
    i := ClaimHasCheck(ws, acts, j, acts[j].h, j);
    AttemptCollides(ws, acts, i, j, acts[j].h);
  }

  /** Blocking from inside a match: the block and then the ending by its blocker separate the pair
      again, other matches being left alone. */
  lemma BlockFromMatchSeparates(x: World, u: UserId, target: UserId, m: MatchId, now: Millis)
    requires BaseInv(x.redis) && Clean(x) && m in x.redis.matches && Meets(x.redis.matches[m], u, target)
    ensures var blocked := x.(db := D.Block(x.db, u, target, now).0);
      var (k, reply) := EndForUser(x.redis, u, m, Blocked);
      && reply == 1 && m !in k.matches && !Clean(blocked) && Clean(blocked.(redis := k))
      && (forall n | n != m && n in x.redis.matches :: n in k.matches && k.matches[n] == x.redis.matches[n])
  {
    InvAt(x.redis, u, m, (0, 0));
    var blocked := x.(db := D.Block(x.db, u, target, now).0);
    assert blocked.db.Blocked((x.redis.matches[m].a, x.redis.matches[m].b));
    forall n | n in x.redis.matches && n != m ensures !blocked.db.Blocked((x.redis.matches[n].a, x.redis.matches[n].b)) {
      InvAt(x.redis, u, n, (0, 0));
    }
  }

  /** Users 1 and 2 have an active connection from an earlier match. */
  const CONNECTED := D.Tables(map[5 := D.Row(1, 2, 50, None)], map[50 := D.Past(1, 2, D.Connected)], {}, map[])

  lemma StaleCheck(s: Keyspace) returns (w: seq<World>, acts: seq<Action>)
    requires LapseInv(s) && s.matches == map[] && s.issued == map[] && Claimable(s, 1, 2, 101, 102, false)
    ensures |w| == 4 && |acts| == 3 && w[0] == World(s, CONNECTED, map[])
    ensures Next(w[0], acts[0], w[1]) && Next(w[1], acts[1], w[2]) && Next(w[2], acts[2], w[3])
    ensures acts[0].Check? && acts[1] == CommitBlock(2, 1, 0) && acts[2].ClaimChecked?
    ensures Clean(w[0]) && Clean(w[2]) && !Clean(w[3])
    ensures D.Integrity(CONNECTED) && D.IsActiveRow(CONNECTED, (1, 2), 5)
  {
    hide LapseInv, Claim, Connect, Heartbeat, Enqueue, LeaveQueue, CleanupQueued, Reconnect, Relay, Extend, ConnectVote,
         PublishConnection, Disconnect, Expire, GraceExpire, End, EndForUser;
    var t := DoClaim(1, 2, 101, 102, 10, "gaming", [], 0, false);
    acts := [Check(0, 1, 2), CommitBlock(2, 1, 0), ClaimChecked(0, t)];
    var w0 := World(s, CONNECTED, map[]);
    var w1 := w0.(checked := map[0 := (1, 2)]);
    var w2 := w1.(db := D.Block(w1.db, 2, 1, 0).0);
    var w3 := w2.(redis := Apply(s, t).0, checked := w2.checked - {0});
    w := [w0, w1, w2, w3];
    assert w0.checked[0 := (1, 2)] == map[0 := (1, 2)];
    assert w2.db.Blocked((1, 2)) && Collides(w2, acts[2]);
    CleanExactlyWithoutCollision(w2, acts[2], w3);
  }

  /** A block that commits between the eligibility check and the claim is bypassed. The two share an
      active connection, in whose context user 2 may block user 1. */
  lemma StaleCheckBypassesBlock() returns (ts: seq<Step>, w: seq<World>, acts: seq<Action>)
    ensures LegalRun(EMPTY, ts) && |w| == 4 && |acts| == 3
    ensures w[0] == World(Run(EMPTY, ts), CONNECTED, map[]) && Clean(w[0])
    ensures Next(w[0], acts[0], w[1]) && Next(w[1], acts[1], w[2]) && Next(w[2], acts[2], w[3])
    ensures acts[0].Check? && acts[1].CommitBlock? && acts[2].ClaimChecked?
    ensures D.Integrity(w[0].db) && acts[1].u == 2 && acts[1].target == 1 && D.IsActiveRow(w[0].db, (1, 2), 5)
    ensures Clean(w[2]) && !Clean(w[3])
  {
    hide Run, LegalRun, LapseInv, Next, Clean;
    ts := ThreeQueued();
    EmptyKeeps();
    RunKeeps(EMPTY, ts);
    w, acts := StaleCheck(Run(EMPTY, ts));
  }
}

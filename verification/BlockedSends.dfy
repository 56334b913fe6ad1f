/** Blocks against sends: a send is authorised by a read that comes before its transaction, and a
    block ends the rows that its UPDATE has found. */
module BlockedSends {
  import opened Basics
  import opened Messaging
  import opened CommitOrder

  /** Transaction `tx` is on its way to store `m` as a new message. */
  ghost predicate Carries(s: Server, tx: TxId, m: Message) {
    tx in s.txs && !s.txs[tx].Ending? && s.txs[tx].m == m && (s.txs[tx].Written? ==> s.txs[tx].isNew)
  }

  ghost predicate Stored(s: Server, m: Message) { exists i :: HasKey(s.d, m, i) }

  /** The connection of `m` joins the blocked pair. */
  predicate Stands(s: Server, m: Message, pair: BlockPair) {
    m.conn in s.d.rows && Joins(s.d.rows[m.conn], pair) && pair in s.blocks
  }

  /** Steps from `s` during which the block is not taken back. */
  ghost predicate Continues(s: Server, pair: BlockPair, ss: seq<Server>, acts: seq<Action>) {
    && |ss| == |acts| + 1 && ss[0] == s
    && forall k | 0 <= k < |acts| :: Next(ss[k], acts[k], ss[k + 1]) && acts[k] != Unblock(pair)
  }

  ghost predicate Appears(s: Server, t: Server, m: Message, i: MessageId) {
    i in t.d.messages && t.d.messages[i] == m && i !in s.d.messages
  }

  /** In some continuation under the block, `m` becomes visible as a new message. */
  ghost predicate CanCommit(s: Server, m: Message, pair: BlockPair) {
    exists ss, acts, i :: Continues(s, pair, ss, acts) && Appears(s, ss[|acts|], m, i)
  }

  // ---- what bars a message ----

  ghost predicate Barred(s: Server, m: Message, pair: BlockPair) {
    && CommitOrder.Inv(s) && Stands(s, m, pair)
    && (s.d.rows[m.conn].ended || Stored(s, m) || forall tx :: !Carries(s, tx, m))
  }

  /** A new message comes from a transaction that carried it, on an active connection. */
  lemma AppearingWasCarried(s: Server, a: Action, t: Server, m: Message, i: MessageId)
    requires CommitOrder.Inv(s) && Next(s, a, t) && Appears(s, t, m, i)
    ensures a.CommitSend? && Carries(s, a.tx, m) && !Stored(s, m) && m.conn in s.d.rows && !s.d.rows[m.conn].ended
  {
    MessagesStay(s, a, t);
    InvAt(s, a.tx, a.tx, m.conn, i, 0, 0);
    forall j ensures !HasKey(s.d, m, j) { InvAt(s, a.tx, a.tx, m.conn, j, 0, 0); }
    hide CommitOrder.Inv;
  }

  lemma RowsStay(s: Server, a: Action, t: Server, m: Message, pair: BlockPair)
    requires Next(s, a, t) && Stands(s, m, pair) && a != Unblock(pair)
    ensures Stands(t, m, pair) && (s.d.rows[m.conn].ended ==> t.d.rows[m.conn].ended)
  {}

  /** Under the block nobody new is authorised. */
  lemma CarriersStay(s: Server, a: Action, t: Server, m: Message, pair: BlockPair, tx: TxId)
    requires CommitOrder.Inv(s) && Next(s, a, t) && Stands(s, m, pair) && Carries(t, tx, m)
    ensures Carries(s, tx, m)
  {
    assert Messaging.RowOk(s.d, m.conn);
    hide CommitOrder.Inv, Messaging.Inv;
  }

  lemma BarredStays(s: Server, a: Action, t: Server, m: Message, pair: BlockPair)
    requires Barred(s, m, pair) && Next(s, a, t) && a != Unblock(pair)
    ensures Barred(t, m, pair)
    ensures forall i :: !Appears(s, t, m, i)
  {
    hide Next, CommitOrder.Inv, Stands;
    NextKeeps(s, a, t);
    RowsStay(s, a, t, m, pair);
    MessagesStay(s, a, t);
    forall i ensures !Appears(s, t, m, i) {
      if Appears(s, t, m, i) { AppearingWasCarried(s, a, t, m, i); }
    }
    if i :| HasKey(s.d, m, i) {
      assert HasKey(t.d, m, i);
    } else {
      forall tx | Carries(t, tx, m) ensures Carries(s, tx, m) { CarriersStay(s, a, t, m, pair, tx); }
      hide Carries;
      RowsHold(s, t, m, pair);
    }
  }

  lemma RowsHold(s: Server, t: Server, m: Message, pair: BlockPair)
    requires Stands(s, m, pair) && Stands(t, m, pair)
    ensures m.conn in s.d.rows && m.conn in t.d.rows
  {}

  lemma {:induction false} BarredForever(s: Server, m: Message, pair: BlockPair, ss: seq<Server>, acts: seq<Action>, n: nat, i: MessageId)
    requires Barred(s, m, pair) && Continues(s, pair, ss, acts) && n < |ss|
    ensures Barred(ss[n], m, pair) && !Appears(s, ss[n], m, i)
  {
    hide Barred, Next;
    if n > 0 {
      BarredForever(s, m, pair, ss, acts, n - 1, i);
      assert Next(ss[n - 1], acts[n - 1], ss[n]) && acts[n - 1] != Unblock(pair);
      BarredStays(ss[n - 1], acts[n - 1], ss[n], m, pair);
      assert !Appears(ss[n - 1], ss[n], m, i);
      KnownStay(ss[n - 1], acts[n - 1], ss[n], m, pair, i);
    }
  }

  lemma KnownStay(s: Server, a: Action, t: Server, m: Message, pair: BlockPair, i: MessageId)
    requires Barred(s, m, pair) && Next(s, a, t)
    ensures i in s.d.messages ==> i in t.d.messages && t.d.messages[i] == s.d.messages[i]
  {
    hide Next;
    MessagesStay(s, a, t);
  }

  // ---- how a carried message gets through ----

  lemma StepThenCommit(s: Server, a: Action, t: Server, m: Message, pair: BlockPair)
    requires Next(s, a, t) && a != Unblock(pair) && CanCommit(t, m, pair)
    requires forall i | i in s.d.messages :: i in t.d.messages
    ensures CanCommit(s, m, pair)
  {
    hide Next;
    var ss, acts, i :| Continues(t, pair, ss, acts) && Appears(t, ss[|acts|], m, i);
    var more, all := [a] + acts, [s] + ss;
    forall k | 0 <= k < |more| ensures Next(all[k], more[k], all[k + 1]) && more[k] != Unblock(pair) {
      if k > 0 { assert Next(ss[k - 1], acts[k - 1], ss[k]); }
    }
    assert Continues(s, pair, all, more) && all[|more|] == ss[|acts|];
    assert Appears(s, all[|more|], m, i);
  }

  lemma WrittenCommits(s: Server, tx: TxId, m: Message, pair: BlockPair)
    requires CommitOrder.Inv(s) && Carries(s, tx, m) && s.txs[tx].Written?
    ensures CanCommit(s, m, pair)
  {
    var w := s.txs[tx];
    InvAt(s, tx, tx, m.conn, w.id, 0, 0);
    hide CommitOrder.Inv;
    var d := s.d.(messages := s.d.messages[w.id := m]);
    var t := Unlock(s, tx).(d := AddNote(d, Reader(s.d, m), w.id, m.conn), order := s.order + [w.id]);
    assert CommitSendStep(s, tx, t);
    var ss, acts := [s, t], [CommitSend(tx)];
    assert Continues(s, pair, ss, acts) && Appears(s, ss[|acts|], m, w.id);
  }

  lemma SendingWrites(s: Server, tx: TxId, m: Message, pair: BlockPair)
    requires CommitOrder.Inv(s) && Carries(s, tx, m) && s.txs[tx].Sending? && !Stored(s, m)
    requires forall other :: !Rival(s, tx, other)
    ensures CanCommit(s, m, pair)
  {
    var t := s.(nextId := s.nextId + 1, txs := s.txs[tx := Written(m, s.nextId, true)]);
    assert WriteStep(s, tx, t);
    NextKeeps(s, Write(tx), t);
    WrittenCommits(t, tx, m, pair);
    hide CommitOrder.Inv, CanCommit;
    StepThenCommit(s, Write(tx), t, m, pair);
  }

  /** A transaction writing the same key may still fail. */
  lemma SendingCommits(s: Server, tx: TxId, m: Message, pair: BlockPair)
    requires CommitOrder.Inv(s) && Carries(s, tx, m) && s.txs[tx].Sending? && !Stored(s, m)
    ensures CanCommit(s, m, pair)
  {
    if other :| Rival(s, tx, other) {
      var t := Unlock(s, other);
      assert Next(s, Rollback(other), t);
      NextKeeps(s, Rollback(other), t);
      forall x ensures !Rival(t, tx, x) { InvAt(s, other, x, 0, 0, 0, 0); }
      hide CommitOrder.Inv, CanCommit, Next;
      SendingWrites(t, tx, m, pair);
      StepThenCommit(s, Rollback(other), t, m, pair);
    } else {
      SendingWrites(s, tx, m, pair);
    }
  }

  lemma UnlockedSends(s: Server, tx: TxId, m: Message, pair: BlockPair)
    requires CommitOrder.Inv(s) && Carries(s, tx, m) && s.txs[tx].Authorised? && !Stored(s, m)
    requires m.conn in s.d.rows && !s.d.rows[m.conn].ended && m.conn !in s.locks
    ensures CanCommit(s, m, pair)
  {
    var t := s.(locks := s.locks[m.conn := tx], txs := s.txs[tx := Sending(m)]);
    assert LockSendStep(s, tx, t);
    NextKeeps(s, LockSend(tx), t);
    SendingCommits(t, tx, m, pair);
    hide CommitOrder.Inv, CanCommit;
    StepThenCommit(s, LockSend(tx), t, m, pair);
  }

  /** And so may one that holds the row. */
  lemma AuthorisedCommits(s: Server, tx: TxId, m: Message, pair: BlockPair)
    requires CommitOrder.Inv(s) && Carries(s, tx, m) && s.txs[tx].Authorised? && !Stored(s, m)
    requires m.conn in s.d.rows && !s.d.rows[m.conn].ended
    ensures CanCommit(s, m, pair)
  {
    if m.conn in s.locks {
      var holder := s.locks[m.conn];
      InvAt(s, holder, tx, m.conn, 0, 0, 0);
      InvAt(s, tx, holder, m.conn, 0, 0, 0);
      var t := Unlock(s, holder);
      assert Next(s, Rollback(holder), t);
      NextKeeps(s, Rollback(holder), t);
      hide CommitOrder.Inv, CanCommit, Next;
      UnlockedSends(t, tx, m, pair);
      StepThenCommit(s, Rollback(holder), t, m, pair);
    } else {
      UnlockedSends(s, tx, m, pair);
    }
  }

  // ---- the exact condition ----

  /** Under a standing block a message of the pair can still commit exactly when its connection has
      not ended, its key is not stored, and its send was authorised before and is under way. */
  lemma CommitsUnderBlockExactly(s: Server, m: Message, pair: BlockPair)
    requires CommitOrder.Inv(s) && Stands(s, m, pair)
    ensures CanCommit(s, m, pair) <==> !s.d.rows[m.conn].ended && !Stored(s, m) && exists tx :: Carries(s, tx, m)
  {
    hide Stored;
    if !s.d.rows[m.conn].ended && !Stored(s, m) && exists tx :: Carries(s, tx, m) {
      var tx :| Carries(s, tx, m);
      match s.txs[tx]
      case Authorised(_) => AuthorisedCommits(s, tx, m, pair);
      case Sending(_) => SendingCommits(s, tx, m, pair);
      case Written(_, _, _) => WrittenCommits(s, tx, m, pair);
    } else if CanCommit(s, m, pair) {
      var ss, acts, i :| Continues(s, pair, ss, acts) && Appears(s, ss[|acts|], m, i);
      assert Barred(s, m, pair);
      BarredForever(s, m, pair, ss, acts, |acts|, i);
    }
  }

  /** In every execution, when a block commits, a message of the pair's connection can still become
      visible afterwards exactly when the block's update missed the row, which was active, and the
      send had been authorised before the block committed and is not stored yet. */
  lemma LateMessageExactly(ss: seq<Server>, acts: seq<Action>, p: nat, pair: BlockPair, m: Message)
    requires Execution(ss, acts) && p < |acts| && acts[p].CommitEnding?
    requires acts[p].tx in ss[p].txs && ss[p].txs[acts[p].tx].Ending? && ss[p].txs[acts[p].tx].blocks == Some(pair)
    requires m.conn in ss[p].d.rows && Joins(ss[p].d.rows[m.conn], pair)
    ensures CanCommit(ss[p + 1], m, pair) <==>
      && m.conn !in ss[p].txs[acts[p].tx].held && !ss[p].d.rows[m.conn].ended
      && !Stored(ss[p], m) && exists tx :: Carries(ss[p], tx, m)
  {
    var s, t := ss[p], ss[p + 1];
    assert Next(s, acts[p], t);
    ExecutionKeeps(ss, acts, p + 1);
    hide CommitOrder.Inv, CanCommit;
    forall tx ensures Carries(t, tx, m) <==> Carries(s, tx, m) {}
    forall i ensures HasKey(t.d, m, i) <==> HasKey(s.d, m, i) {}
    CommitsUnderBlockExactly(t, m, pair);
  }

  /** A connection that is made while the block stands never carries a message under it. */
  lemma NothingOnLaterConnection(s: Server, c: ConnectionId, row: Conn, t: Server, m: Message, pair: BlockPair)
    requires CommitOrder.Inv(s) && Next(s, Connect(c, row), t) && pair in s.blocks && Joins(row, pair) && m.conn == c
    ensures !CanCommit(t, m, pair)
  {
    NextKeeps(s, Connect(c, row), t);
    forall tx ensures !Carries(t, tx, m) { InvAt(s, tx, tx, c, 0, 0, 0); }
    hide CommitOrder.Inv, CanCommit;
    CommitsUnderBlockExactly(t, m, pair);
  }

  /** It happens: user 2's block has looked for rows before the connection of 1 and 2 commits, user
      1's send is authorised, and the block commits. */
  lemma BlockMissesSend() returns (ss: seq<Server>, acts: seq<Action>, m: Message)
    ensures Execution(ss, acts) && |acts| == 4 && (2, 1) in ss[4].blocks
    ensures acts[3].CommitEnding? && m.sender == 1 && CanCommit(ss[4], m, (2, 1))
  {
    m := Message(5, 1, 9, "hi");
    var s1 := START.(txs := map[1 := Ending(Some((2, 1)), {})]);
    var s2 := s1.(d := s1.d.(rows := map[5 := Conn(1, 2, false)]));
    var s3 := s2.(txs := s2.txs[7 := Authorised(m)]);
    var s4 := s3.(txs := map[7 := Authorised(m)], blocks := {(2, 1)});
    ss := [START, s1, s2, s3, s4];
    acts := [BeginEnding(1, Some((2, 1))), Connect(5, Conn(1, 2, false)), Authorise(7, m), CommitEnding(1)];
    assert START.txs[1 := Ending(Some((2, 1)), {})] == s1.txs;
    assert s1.d.rows[5 := Conn(1, 2, false)] == s2.d.rows;
    MissStep(s3, s4, m);
    assert Next(ss[0], acts[0], ss[1]) && Next(ss[1], acts[1], ss[2]) && Next(ss[2], acts[2], ss[3]) && Next(ss[3], acts[3], ss[4]);
    hide Next, CommitOrder.Inv, CanCommit;
    assert Execution(ss, acts);
    ExecutionKeeps(ss, acts, 4);
    assert Carries(s4, 7, m) && !Stored(s4, m);
    CommitsUnderBlockExactly(s4, m, (2, 1));
  }

  lemma MissStep(s: Server, t: Server, m: Message)
    requires s.txs == map[1 := Ending(Some((2, 1)), {}), 7 := Authorised(m)] && s.locks == map[] && s.blocks == {}
    requires t == s.(txs := map[7 := Authorised(m)], blocks := {(2, 1)})
    ensures CommitEndingStep(s, 1, t)
  {
    assert s.txs - {1} == map[7 := Authorised(m)];
    assert s.locks - {} == s.locks;
    assert EndRows(s.d.rows, {}) == s.d.rows;
  }

  // ---- which rows an ending takes ----

  /** A block holds rows of its pair only, a removal one row. */
  ghost predicate HeldOk(s: Server, tx: TxId) {
    tx in s.txs && s.txs[tx].Ending? ==>
      && (s.txs[tx].blocks.None? ==> |s.txs[tx].held| <= 1)
      && forall c | c in s.txs[tx].held ::
           c in s.d.rows && (s.txs[tx].blocks.Some? ==> Joins(s.d.rows[c], s.txs[tx].blocks.value))
  }

  lemma HeldStep(s: Server, a: Action, t: Server, tx: TxId)
    requires Next(s, a, t) && HeldOk(s, tx)
    ensures HeldOk(t, tx)
  {
    if a.UpdateRow? && s.txs[a.tx].blocks.None? { assert t.txs[a.tx].held == {a.c}; }
    hide AuthoriseStep, ValidBody, Rival, HasKey, AddNote;
  }

  lemma {:induction false} HeldThroughout(ss: seq<Server>, acts: seq<Action>, n: nat, tx: TxId)
    requires Execution(ss, acts) && n < |ss|
    ensures HeldOk(ss[n], tx)
  {
    hide Next, HeldOk;
    if n > 0 {
      HeldThroughout(ss, acts, n - 1, tx);
      assert Next(ss[n - 1], acts[n - 1], ss[n]);
      HeldStep(ss[n - 1], acts[n - 1], ss[n], tx);
    } else {
      NobodyHolds(tx);
    }
  }

  lemma NobodyHolds(tx: TxId)
    ensures HeldOk(START, tx)
  {}

  /** In every execution a connection ends only by the commit of an ending that has updated it: a
      block of two people ends no connection but theirs, a removal no more than one. */
  lemma EndedByItsOwnEnding(ss: seq<Server>, acts: seq<Action>, n: nat, c: ConnectionId)
    requires Execution(ss, acts) && n < |acts| && c in ss[n].d.rows && !ss[n].d.rows[c].ended
    ensures c in ss[n + 1].d.rows
    ensures (ss[n + 1].d.rows[c].low, ss[n + 1].d.rows[c].high) == (ss[n].d.rows[c].low, ss[n].d.rows[c].high)
    ensures ss[n + 1].d.rows[c].ended <==>
      acts[n].CommitEnding? && acts[n].tx in ss[n].txs && ss[n].txs[acts[n].tx].Ending? && c in ss[n].txs[acts[n].tx].held
    ensures ss[n + 1].d.rows[c].ended ==>
      var e := ss[n].txs[acts[n].tx];
      var row := ss[n].d.rows[c];
      if e.blocks.Some? then {row.low, row.high} == {e.blocks.value.0, e.blocks.value.1} && e.blocks.value in ss[n + 1].blocks
      else e.held == {c}
  {
    assert Next(ss[n], acts[n], ss[n + 1]);
    if acts[n].CommitEnding? {
      HeldThroughout(ss, acts, n, acts[n].tx);
      var e := ss[n].txs[acts[n].tx];
      if c in e.held && e.blocks.None? { SubsetSize({c}, e.held); }
    }
    hide AuthoriseStep, LockSendStep, WriteStep;
  }
}

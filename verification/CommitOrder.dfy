/** The same transactions taken apart: the authorising read, row lock, write and commit are separate
    steps of many concurrent sends, beside removals, blocks and unblocks. Commits refine the
    one-at-a-time transactions of Messaging, in an order in which the identifiers of a connection
    ascend. */
module CommitOrder {
  import opened Basics
  import opened Messaging

  type TxId = nat

  type BlockPair = (UserId, UserId)  // who blocks whom

  datatype Tx =
    | Authorised(m: Message)                           // the connection was active and not blocked when read
    | Sending(m: Message)                              // holds the row lock, saw the connection active
    | Written(m: Message, id: MessageId, isNew: bool)  // its row is written but not visible
    | Ending(blocks: Option<BlockPair>, held: set<ConnectionId>)  // a removal or a block, with the rows it has updated
  {
    function Held(): set<ConnectionId> { if Ending? then held else if Authorised? then {} else {m.conn} }
  }

  /** `order` lists the messages in the order in which they became visible. */
  datatype Server = Server(
    d: Tables, blocks: set<BlockPair>, nextId: MessageId, locks: map<ConnectionId, TxId>, txs: map<TxId, Tx>,
    order: seq<MessageId>)

  datatype Action =
    | Authorise(tx: TxId, m: Message)
    | LockSend(tx: TxId)
    | Write(tx: TxId)
    | CommitSend(tx: TxId)
    | BeginEnding(tx: TxId, blocks: Option<BlockPair>)
    | UpdateRow(tx: TxId, c: ConnectionId)
    | CommitEnding(tx: TxId)
    | Unblock(pair: BlockPair)
    | Rollback(tx: TxId)
    | Connect(c: ConnectionId, row: Conn)

  function Unlock(s: Server, tx: TxId): Server
    requires tx in s.txs
  {
    s.(locks := s.locks - s.txs[tx].Held(), txs := s.txs - {tx})
  }

  predicate Blocked(s: Server, c: ConnectionId)
    requires c in s.d.rows
  {
    (s.d.rows[c].low, s.d.rows[c].high) in s.blocks || (s.d.rows[c].high, s.d.rows[c].low) in s.blocks
  }

  /** The peer lookup that precedes the transaction, and the limits on the body. */
  ghost predicate AuthoriseStep(s: Server, tx: TxId, m: Message, t: Server) {
    && ValidBody(m.body) && tx !in s.txs
    && m.conn in s.d.rows && !s.d.rows[m.conn].ended && s.d.rows[m.conn].Has(m.sender) && !Blocked(s, m.conn)
    && t == s.(txs := s.txs[tx := Authorised(m)])
  }

  /** SELECT ... FOR UPDATE waits for the lock and then sees the committed row; blocks are not
      looked at again. */
  ghost predicate LockSendStep(s: Server, tx: TxId, t: Server) {
    && tx in s.txs && s.txs[tx].Authorised?
    && var m := s.txs[tx].m;
    && m.conn in s.d.rows && m.conn !in s.locks
    && t == if s.d.rows[m.conn].ended then s.(txs := s.txs - {tx})
            else s.(locks := s.locks[m.conn := tx], txs := s.txs[tx := Sending(m)])
  }

  ghost predicate Rival(s: Server, tx: TxId, other: TxId) {
    && tx in s.txs && other in s.txs && other != tx && s.txs[tx].Sending? && s.txs[other].Written? && s.txs[other].isNew
    && SameKey(s.txs[tx].m, s.txs[other].m)
  }

  /** INSERT ... ON CONFLICT: waits while another transaction is writing the same key; a visible
      row of the key is answered if it is in this connection, and fails the transaction if not. */
  ghost predicate WriteStep(s: Server, tx: TxId, t: Server) {
    && tx in s.txs && s.txs[tx].Sending? && (forall other :: !Rival(s, tx, other))
    && var m := s.txs[tx].m;
    if exists i :: HasKey(s.d, m, i) then
      exists i :: HasKey(s.d, m, i) &&
        t == if s.d.messages[i].conn == m.conn then s.(nextId := s.nextId + 1, txs := s.txs[tx := Written(m, i, false)])
             else Unlock(s.(nextId := s.nextId + 1), tx)
    else t == s.(nextId := s.nextId + 1, txs := s.txs[tx := Written(m, s.nextId, true)])
  }

  ghost predicate CommitSendStep(s: Server, tx: TxId, t: Server) {
    && tx in s.txs && s.txs[tx].Written? && s.txs[tx].m.conn in s.d.rows
    && var w := s.txs[tx];
    var d := if w.isNew then s.d.(messages := s.d.messages[w.id := w.m]) else s.d;
    t == Unlock(s, tx).(d := AddNote(d, Reader(s.d, w.m), w.id, w.m.conn), order := if w.isNew then s.order + [w.id] else s.order)
  }

  predicate Joins(row: Conn, pair: BlockPair) { row.Has(pair.0) && row.Has(pair.1) && pair.0 != pair.1 }

  /** Remove and Block both lock the rows they update until they commit. A removal updates one row, a
      block rows of its pair; it can miss one that commits after its UPDATE has looked. */
  ghost predicate UpdateRowStep(s: Server, tx: TxId, c: ConnectionId, t: Server) {
    && tx in s.txs && s.txs[tx].Ending? && c in s.d.rows && c !in s.locks
    && (if s.txs[tx].blocks.Some? then Joins(s.d.rows[c], s.txs[tx].blocks.value) else s.txs[tx].held == {})
    && t == s.(locks := s.locks[c := tx], txs := s.txs[tx := s.txs[tx].(held := s.txs[tx].held + {c})])
  }

  ghost predicate CommitEndingStep(s: Server, tx: TxId, t: Server) {
    && tx in s.txs && s.txs[tx].Ending?
    && t == Unlock(s, tx).(d := s.d.(rows := EndRows(s.d.rows, s.txs[tx].held)),
                           blocks := if s.txs[tx].blocks.Some? then s.blocks + {s.txs[tx].blocks.value} else s.blocks)
  }

  ghost predicate Next(s: Server, a: Action, t: Server) {
    match a
    case Authorise(tx, m) => AuthoriseStep(s, tx, m, t)
    case LockSend(tx) => LockSendStep(s, tx, t)
    case Write(tx) => WriteStep(s, tx, t)
    case CommitSend(tx) => CommitSendStep(s, tx, t)
    case BeginEnding(tx, pair) => tx !in s.txs && t == s.(txs := s.txs[tx := Ending(pair, {})])
    case UpdateRow(tx, c) => UpdateRowStep(s, tx, c, t)
    case CommitEnding(tx) => CommitEndingStep(s, tx, t)
    case Unblock(pair) => t == s.(blocks := s.blocks - {pair})
    case Rollback(tx) => tx in s.txs && t == Unlock(s, tx)
    case Connect(c, row) => c !in s.d.rows && row.low != row.high && !row.ended && t == s.(d := s.d.(rows := s.d.rows[c := row]))
  }

  // ---- invariant ----

  /** A transaction owns the locks of the rows it holds. */
  ghost predicate Owns(s: Server, tx: TxId, c: ConnectionId) {
    && (tx in s.txs && c in s.txs[tx].Held() ==> c in s.locks && s.locks[c] == tx)
    && (c in s.locks && s.locks[c] == tx ==> tx in s.txs && c in s.txs[tx].Held())
  }

  /** While a send holds its lock, the connection stays active. */
  ghost predicate SendOk(s: Server, tx: TxId) {
    tx in s.txs && !s.txs[tx].Ending? ==>
      var m := s.txs[tx].m;
      && ValidBody(m.body)
      && m.conn in s.d.rows && s.d.rows[m.conn].Has(m.sender) && (!s.txs[tx].Authorised? ==> !s.d.rows[m.conn].ended)
      && (s.txs[tx].Written? && !s.txs[tx].isNew ==> HasKey(s.d, m, s.txs[tx].id) && s.d.messages[s.txs[tx].id].conn == m.conn)
      && (s.txs[tx].Written? && s.txs[tx].isNew ==> 1 <= s.txs[tx].id < s.nextId)
  }

  /** A new row is unique, and younger than everything visible in its connection. */
  ghost predicate NewOk(s: Server, tx: TxId, i: MessageId) {
    tx in s.txs && s.txs[tx].Written? && s.txs[tx].isNew && i in s.d.messages ==>
      && i != s.txs[tx].id && !SameKey(s.d.messages[i], s.txs[tx].m)
      && (s.d.messages[i].conn == s.txs[tx].m.conn ==> i < s.txs[tx].id)
  }

  ghost predicate TxsApart(s: Server, x: TxId, y: TxId) {
    x in s.txs && y in s.txs && x != y && s.txs[x].Written? && s.txs[x].isNew && s.txs[y].Written? && s.txs[y].isNew ==>
      s.txs[x].id != s.txs[y].id && !SameKey(s.txs[x].m, s.txs[y].m)
  }

  ghost predicate Known(s: Server, i: MessageId) { i in s.d.messages ==> 1 <= i < s.nextId && i in s.order }

  predicate SameConn(d: Tables, i: MessageId, j: MessageId) {
    i in d.messages && j in d.messages && d.messages[i].conn == d.messages[j].conn
  }

  ghost predicate Ordered(s: Server, i: nat, j: nat) {
    && (i < |s.order| ==> s.order[i] in s.d.messages)
    && (i < j < |s.order| && SameConn(s.d, s.order[i], s.order[j]) ==> s.order[i] < s.order[j])
  }

  ghost predicate Inv(s: Server) {
    && Messaging.Inv(s.d) && 1 <= s.nextId
    && (forall x, c :: Owns(s, x, c)) && (forall x :: SendOk(s, x)) && (forall x, i :: NewOk(s, x, i))
    && (forall x, y :: TxsApart(s, x, y)) && (forall i :: Known(s, i)) && (forall i, j :: Ordered(s, i, j))
  }

  /** Everything the invariant says at these points. */
  ghost predicate At(s: Server, x: TxId, y: TxId, c: ConnectionId, i: MessageId, p: nat, q: nat) {
    Owns(s, x, c) && SendOk(s, x) && NewOk(s, x, i) && TxsApart(s, x, y) && Known(s, i) && Ordered(s, p, q)
  }

  lemma InvAt(s: Server, x: TxId, y: TxId, c: ConnectionId, i: MessageId, p: nat, q: nat)
    requires Inv(s)
    ensures At(s, x, y, c, i, p, q)
  {
    hide Owns, SendOk, NewOk, TxsApart, Known, Ordered;
  }

  // ---- the commit of a send is the send transaction ----

  /** Refinement: what a commit makes visible is one run of Messaging's send transaction, and the
      connection it commits to has not ended. */
  lemma CommitRefinesSend(s: Server, tx: TxId, t: Server)
    requires Inv(s) && CommitSendStep(s, tx, t)
    ensures var w := s.txs[tx];
      Sends(s.d, w.m, if w.isNew then w.id else s.nextId, t.d, Stored(w.id))
    ensures !s.d.rows[s.txs[tx].m.conn].ended
    ensures s.txs[tx].isNew ==> s.txs[tx].id !in s.d.messages
  {
    var w := s.txs[tx];
    InvAt(s, tx, tx, w.m.conn, w.id, 0, 0);
    if w.isNew {
      forall i ensures !HasKey(s.d, w.m, i) { InvAt(s, tx, tx, w.m.conn, i, 0, 0); }
    } else {
      assert HasKey(s.d, w.m, w.id);
    }
  }

  lemma TablesKept(s: Server, a: Action, t: Server)
    requires Inv(s) && Next(s, a, t)
    ensures Messaging.Inv(t.d)
  {
    if a.CommitSend? {
      var w := s.txs[a.tx];
      CommitRefinesSend(s, a.tx, t);
      InvAt(s, a.tx, a.tx, 0, s.nextId, 0, 0);
      SendKeeps(s.d, w.m, if w.isNew then w.id else s.nextId, t.d, Stored(w.id));
    } else if a.CommitEnding? || a.Connect? {
      RowsMayEnd(s.d, t.d);
    }
  }

  /** Rows may end and be added without disturbing messages. */
  lemma RowsMayEnd(d: Tables, e: Tables)
    requires Messaging.Inv(d) && e == d.(rows := e.rows)
    requires forall c | c in d.rows :: c in e.rows && e.rows[c] == d.rows[c].(ended := e.rows[c].ended)
    requires forall c | c in e.rows && c !in d.rows :: e.rows[c].low != e.rows[c].high
    ensures Messaging.Inv(e)
  {
    forall c ensures RowOk(e, c) { assert RowOk(d, c); }
    forall i ensures MessageOk(e, i) { assert MessageOk(d, i); }
    forall k ensures NoteOk(e, k) { assert NoteOk(d, k) && MessageOk(d, k.1); }
    forall i, j ensures KeysApart(e, i, j) { assert KeysApart(d, i, j); }
    forall k ensures CursorOk(e, k) { assert CursorOk(d, k); }
  }

  // ---- preservation, at one point of each quantifier ----

  lemma AuthoriseAt(s: Server, tx: TxId, m: Message, t: Server, x: TxId, y: TxId, c: ConnectionId, i: MessageId, p: nat, q: nat)
    requires Inv(s) && AuthoriseStep(s, tx, m, t)
    ensures At(t, x, y, c, i, p, q)
  {
    InvAt(s, x, y, c, i, p, q);
    InvAt(s, tx, y, c, i, p, q);
    hide Inv, Messaging.Inv;
  }

  lemma LockSendAt(s: Server, tx: TxId, t: Server, x: TxId, y: TxId, c: ConnectionId, i: MessageId, p: nat, q: nat)
    requires Inv(s) && LockSendStep(s, tx, t)
    ensures At(t, x, y, c, i, p, q)
  {
    InvAt(s, x, y, c, i, p, q);
    InvAt(s, tx, y, c, i, p, q);
  }

  lemma WriteAt(s: Server, tx: TxId, t: Server, x: TxId, y: TxId, c: ConnectionId, i: MessageId, p: nat, q: nat)
    requires Inv(s) && WriteStep(s, tx, t)
    ensures At(t, x, y, c, i, p, q)
  {
    InvAt(s, x, y, c, i, p, q);
    InvAt(s, tx, y, c, i, p, q);
    WriteRivals(s, tx, t, x, y, i);
    hide TxsApart, NewOk, Rival, SameKey, ValidBody;
  }

  lemma WriteRivals(s: Server, tx: TxId, t: Server, x: TxId, y: TxId, i: MessageId)
    requires Inv(s) && WriteStep(s, tx, t)
    ensures NewOk(t, x, i) && TxsApart(t, x, y)
  {
    InvAt(s, x, y, 0, i, 0, 0);
    InvAt(s, tx, y, 0, i, 0, 0);
    InvAt(s, y, tx, 0, i, 0, 0);
    assert !Rival(s, tx, x) && !Rival(s, tx, y);
    assert HasKey(s.d, s.txs[tx].m, i) ==> exists j :: HasKey(s.d, s.txs[tx].m, j);
    hide Owns, Ordered;
  }

  lemma CommitSendAt(s: Server, tx: TxId, t: Server, x: TxId, y: TxId, c: ConnectionId, i: MessageId, p: nat, q: nat)
    requires Inv(s) && CommitSendStep(s, tx, t)
    ensures At(t, x, y, c, i, p, q)
  {
    InvAt(s, x, y, c, i, p, q);
    InvAt(s, x, tx, c, i, p, q);
    InvAt(s, tx, y, s.txs[tx].m.conn, i, p, q);
    InvAt(s, x, y, s.txs[tx].m.conn, i, p, q);
    if p < |s.order| { InvAt(s, tx, y, c, s.order[p], p, q); }
    if q < |s.order| { InvAt(s, x, y, c, i, q, q); }
    if x in s.txs && s.txs[x].Written? { InvAt(s, tx, y, c, s.txs[x].id, p, q); }
  }

  lemma EndingAt(s: Server, a: Action, t: Server, x: TxId, y: TxId, c: ConnectionId, i: MessageId, p: nat, q: nat)
    requires Inv(s) && Next(s, a, t) && (a.BeginEnding? || a.UpdateRow? || a.CommitEnding? || a.Rollback? || a.Connect? || a.Unblock?)
    ensures At(t, x, y, c, i, p, q)
  {
    InvAt(s, x, y, c, i, p, q);
    if !a.Connect? && !a.Unblock? { InvAt(s, a.tx, y, c, i, p, q); }
    if a.CommitEnding? && x in s.txs && !s.txs[x].Ending? {
      InvAt(s, x, y, s.txs[x].m.conn, i, p, q);
      InvAt(s, a.tx, y, s.txs[x].m.conn, i, p, q);
    }
  }

  lemma NextKeeps(s: Server, a: Action, t: Server)
    requires Inv(s) && Next(s, a, t)
    ensures Inv(t)
  {
    hide Owns, SendOk, NewOk, TxsApart, Known, Ordered;
    hide AuthoriseStep, LockSendStep, WriteStep, CommitSendStep, UpdateRowStep, CommitEndingStep;
    forall x, y, c, i, p, q ensures At(t, x, y, c, i, p, q) {
      match a
      case Authorise(tx, m) => AuthoriseAt(s, tx, m, t, x, y, c, i, p, q);
      case LockSend(tx) => LockSendAt(s, tx, t, x, y, c, i, p, q);
      case Write(tx) => WriteAt(s, tx, t, x, y, c, i, p, q);
      case CommitSend(tx) => CommitSendAt(s, tx, t, x, y, c, i, p, q);
      case _ => EndingAt(s, a, t, x, y, c, i, p, q);
    }
    TablesKept(s, a, t);
    NextIdPositive(s, a, t);
    forall x, c ensures Owns(t, x, c) { assert At(t, x, 0, c, 0, 0, 0); }
    forall x ensures SendOk(t, x) { assert At(t, x, 0, 0, 0, 0, 0); }
    forall x, i ensures NewOk(t, x, i) { assert At(t, x, 0, 0, i, 0, 0); }
    forall i ensures Known(t, i) { assert At(t, 0, 0, 0, i, 0, 0); }
    forall x, y ensures TxsApart(t, x, y) { assert At(t, x, y, 0, 0, 0, 0); }
    forall p, q ensures Ordered(t, p, q) { assert At(t, 0, 0, 0, 0, p, q); }
  }

  lemma NextIdPositive(s: Server, a: Action, t: Server)
    requires Next(s, a, t) && 1 <= s.nextId
    ensures 1 <= t.nextId
  {}

  // ---- executions ----

  const START := Server(Tables(map[], map[], map[], map[]), {}, 1, map[], map[], [])

  ghost predicate Execution(ss: seq<Server>, acts: seq<Action>) {
    && |ss| == |acts| + 1 && ss[0] == START
    && forall k | 0 <= k < |acts| :: Next(ss[k], acts[k], ss[k + 1])
  }

  lemma StartIsGood()
    ensures Inv(START)
  {}

  lemma {:induction false} ExecutionKeeps(ss: seq<Server>, acts: seq<Action>, n: nat)
    requires Execution(ss, acts) && n < |ss|
    ensures Inv(ss[n])
  {
    hide Inv, Next;
    if n == 0 {
      StartIsGood();
    } else {
      ExecutionKeeps(ss, acts, n - 1);
      assert Next(ss[n - 1], acts[n - 1], ss[n]);
      NextKeeps(ss[n - 1], acts[n - 1], ss[n]);
    }
  }

  /** In every interleaving, the messages of a connection become visible in ascending order of
      their identifiers, at most one per (sender, client id), each with its one notification. */
  lemma MessagesAscendInCommitOrder(ss: seq<Server>, acts: seq<Action>, n: nat, p: nat, q: nat)
    requires Execution(ss, acts) && n < |ss| && p < q < |ss[n].order|
    ensures var s := ss[n];
      && s.order[p] in s.d.messages && s.order[q] in s.d.messages
      && (s.d.messages[s.order[p]].conn == s.d.messages[s.order[q]].conn ==> s.order[p] < s.order[q])
    ensures Messaging.Inv(ss[n].d)
  {
    ExecutionKeeps(ss, acts, n);
    InvAt(ss[n], 0, 0, 0, 0, p, q);
    InvAt(ss[n], 0, 0, 0, 0, q, q);
  }

  function MessagesOf(d: Tables, c: ConnectionId): map<MessageId, Message> {
    map i | i in d.messages && d.messages[i].conn == c :: d.messages[i]
  }

  /** Messages are never changed or taken back. */
  lemma MessagesStay(s: Server, a: Action, t: Server)
    requires Inv(s) && Next(s, a, t)
    ensures forall i | i in s.d.messages :: i in t.d.messages && t.d.messages[i] == s.d.messages[i]
    ensures !a.CommitSend? ==> t.d.messages == s.d.messages
  {
    if a.CommitSend? { InvAt(s, a.tx, a.tx, 0, s.txs[a.tx].id, 0, 0); }
    hide Inv;
  }

  lemma CommitGoesElsewhere(s: Server, tx: TxId, t: Server, c: ConnectionId)
    requires Inv(s) && CommitSendStep(s, tx, t) && c in s.d.rows && s.d.rows[c].ended
    ensures MessagesOf(t.d, c) == MessagesOf(s.d, c)
  {
    var w := s.txs[tx];
    InvAt(s, tx, tx, c, w.id, 0, 0);
    hide Inv, Messaging.Inv, TxsApart, Owns, Known, Ordered, Unlock;
    forall i ensures i in MessagesOf(t.d, c) <==> i in MessagesOf(s.d, c) {}
  }

  lemma EndedStaysEnded(s: Server, a: Action, t: Server, c: ConnectionId)
    requires Next(s, a, t) && c in s.d.rows && s.d.rows[c].ended
    ensures c in t.d.rows && t.d.rows[c].ended && (!a.CommitSend? ==> t.d.messages == s.d.messages)
  {}

  lemma EndedStepIsSilent(s: Server, a: Action, t: Server, c: ConnectionId)
    requires Inv(s) && Next(s, a, t) && c in s.d.rows && s.d.rows[c].ended
    ensures c in t.d.rows && t.d.rows[c].ended && MessagesOf(t.d, c) == MessagesOf(s.d, c)
  {
    EndedStaysEnded(s, a, t, c);
    if a.CommitSend? { CommitGoesElsewhere(s, a.tx, t, c); }
    hide Inv, Next;
  }

  /** Once a connection has ended, by a removal or by a block whose update found its row, no message
      of it is committed any more, in any continuation, however many sends were in flight. */
  lemma {:induction false} NothingAfterTheEnd(ss: seq<Server>, acts: seq<Action>, n: nat, k: nat, c: ConnectionId)
    requires Execution(ss, acts) && n <= k < |ss| && c in ss[n].d.rows && ss[n].d.rows[c].ended
    ensures c in ss[k].d.rows && ss[k].d.rows[c].ended && MessagesOf(ss[k].d, c) == MessagesOf(ss[n].d, c)
    decreases k
  {
    hide Inv, Next, MessagesOf;
    if n < k {
      NothingAfterTheEnd(ss, acts, n, k - 1, c);
      ExecutionKeeps(ss, acts, k - 1);
      assert Next(ss[k - 1], acts[k - 1], ss[k]);
      EndedStepIsSilent(ss[k - 1], acts[k - 1], ss[k], c);
    }
  }
}

/** Durable messages, their notifications and the receipt cursors, one committed transaction at a
    time. */
module Messaging {
  import opened Basics

  type MessageId = nat   // identity column, starting at 1
  type ClientId = nat    // drawn by the sending client

  datatype Message = Message(conn: ConnectionId, sender: UserId, clientId: ClientId, body: string)

  datatype Note = Note(conn: ConnectionId, read: bool)

  /** The two cursors of one reader in one connection. */
  datatype Cursor = Cursor(delivered: MessageId, read: MessageId) {
    predicate Below(c: Cursor) { delivered <= c.delivered && read <= c.read }

    function Join(c: Cursor): Cursor {
      Cursor(if delivered < c.delivered then c.delivered else delivered, if read < c.read then c.read else read)
    }
  }

  const NO_CURSOR := Cursor(0, 0)

  /** `notes` are the notifications of kind 'message', unique by reader and message. */
  datatype Tables = Tables(
    rows: map<ConnectionId, Conn>,
    messages: map<MessageId, Message>,
    notes: map<(UserId, MessageId), Note>,
    receipts: map<(ConnectionId, UserId), Cursor>)

  // ---- invariant ----

  predicate SameKey(m: Message, n: Message) { m.sender == n.sender && m.clientId == n.clientId }

  function Reader(d: Tables, m: Message): UserId
    requires m.conn in d.rows
  {
    d.rows[m.conn].Peer(m.sender)
  }

  ghost predicate RowOk(d: Tables, c: ConnectionId) {
    c in d.rows ==> d.rows[c].low != d.rows[c].high
  }

  /** A message has a notification for the other member. */
  ghost predicate MessageOk(d: Tables, i: MessageId) {
    i in d.messages ==>
      var m := d.messages[i];
      && 1 <= i && m.conn in d.rows && d.rows[m.conn].Has(m.sender)
      && (Reader(d, m), i) in d.notes
  }

  /** A notification has its message. */
  ghost predicate NoteOk(d: Tables, k: (UserId, MessageId)) {
    k in d.notes ==>
      && k.1 in d.messages && d.messages[k.1].conn in d.rows
      && k.0 == Reader(d, d.messages[k.1]) && d.notes[k].conn == d.messages[k.1].conn
  }

  ghost predicate KeysApart(d: Tables, i: MessageId, j: MessageId) {
    i in d.messages && j in d.messages && i != j ==> !SameKey(d.messages[i], d.messages[j])
  }

  ghost predicate CursorOk(d: Tables, k: (ConnectionId, UserId)) {
    k in d.receipts ==> d.receipts[k].read <= d.receipts[k].delivered && 1 <= d.receipts[k].delivered
  }

  ghost predicate Inv(d: Tables) {
    && (forall c :: RowOk(d, c)) && (forall i :: MessageOk(d, i)) && (forall k :: NoteOk(d, k))
    && (forall i, j :: KeysApart(d, i, j)) && (forall k :: CursorOk(d, k))
  }

  // ---- send ----

  datatype Reply = Invalid | Forbidden | Conflict | Stored(id: MessageId)

  /** The length limits on a trimmed body. */
  predicate ValidBody(body: string) { 1 <= |body| <= 4000 }

  ghost predicate HasKey(d: Tables, m: Message, i: MessageId) {
    i in d.messages && SameKey(d.messages[i], m)
  }

  function AddNote(d: Tables, reader: UserId, i: MessageId, c: ConnectionId): Tables {
    if (reader, i) in d.notes then d else d.(notes := d.notes[(reader, i) := Note(c, false)])
  }

  /** The send transaction: `newId` is the value the identity column would assign. */
  ghost predicate Sends(d: Tables, m: Message, newId: MessageId, e: Tables, r: Reply) {
    if !ValidBody(m.body) then e == d && r == Invalid
    else if m.conn !in d.rows || d.rows[m.conn].ended || !d.rows[m.conn].Has(m.sender) then e == d && r == Forbidden
    else if exists i :: HasKey(d, m, i) then
      exists i :: HasKey(d, m, i) &&
        if d.messages[i].conn == m.conn then r == Stored(i) && e == AddNote(d, Reader(d, m), i, m.conn)
        else r == Conflict && e == d
    else r == Stored(newId) && e == AddNote(d.(messages := d.messages[newId := m]), Reader(d, m), newId, m.conn)
  }

  lemma SendKeeps(d: Tables, m: Message, newId: MessageId, e: Tables, r: Reply)
    requires Inv(d) && 1 <= newId && newId !in d.messages && Sends(d, m, newId, e, r)
    ensures Inv(e)
    ensures forall i | i in d.messages :: i in e.messages && e.messages[i] == d.messages[i]
    ensures r.Stored? ==> ValidBody(m.body) && HasKey(e, m, r.id) && e.messages[r.id].conn == m.conn
  {
    forall c ensures RowOk(e, c) { assert RowOk(d, c); }
    forall i ensures MessageOk(e, i) { assert MessageOk(d, i); }
    forall k ensures NoteOk(e, k) {
      assert NoteOk(d, k);
      if r.Stored? { assert MessageOk(d, r.id) && RowOk(d, m.conn); }
    }
    forall i, j ensures KeysApart(e, i, j) {
      assert KeysApart(d, i, j);
      assert HasKey(d, m, i) || HasKey(d, m, j) ==> exists x :: HasKey(d, m, x);
    }
    forall k ensures CursorOk(e, k) { assert CursorOk(d, k); }
  }

  /** Exactly once: after a send was stored, sending the same draft again stores nothing, notifies
      nobody, and answers with the first message, whatever id the column offers. */
  lemma ResendIsIdempotent(d: Tables, m: Message, i: MessageId, e: Tables, id: MessageId, j: MessageId, f: Tables, r: Reply)
    requires Inv(d) && 1 <= i && i !in d.messages && Sends(d, m, i, e, Stored(id))
    requires Sends(e, m, j, f, r)
    ensures f == e && r == Stored(id)
  {
    SendKeeps(d, m, i, e, Stored(id));
    assert HasKey(e, m, id) && MessageOk(e, id) && RowOk(e, m.conn);
    forall x | HasKey(e, m, x) ensures x == id { assert KeysApart(e, x, id); }
  }

  // ---- receipts ----

  predicate ReceiptValid(d: Tables, u: UserId, c: ConnectionId, i: MessageId) {
    && c in d.rows && d.rows[c].Has(u)
    && i in d.messages && d.messages[i].conn == c && d.messages[i].sender == d.rows[c].Peer(u)
  }

  function CursorOf(d: Tables, c: ConnectionId, u: UserId): Cursor {
    if (c, u) in d.receipts then d.receipts[(c, u)] else NO_CURSOR
  }

  /** The cursor a receipt carries: `shares` is the reader's read-receipt setting. */
  function Carried(i: MessageId, read: bool, shares: bool): Cursor {
    Cursor(i, if read && shares then i else 0)
  }

  function MarkRead(notes: map<(UserId, MessageId), Note>, u: UserId, c: ConnectionId, i: MessageId): map<(UserId, MessageId), Note> {
    map k | k in notes :: if k.0 == u && notes[k].conn == c && k.1 <= i then notes[k].(read := true) else notes[k]
  }

  /** A receipt: the tables afterwards, and whether the peer is told. */
  function Receipt(d: Tables, u: UserId, c: ConnectionId, i: MessageId, read: bool, shares: bool): (Tables, bool) {
    if !ReceiptValid(d, u, c, i) then (d, false)
    else
      var was := CursorOf(d, c, u);
      var x := Carried(i, read, shares);
      var changed := (c, u) !in d.receipts || was.delivered < x.delivered || was.read < x.read;
      (d.(receipts := if changed then d.receipts[(c, u) := was.Join(x)] else d.receipts,
          notes := if read then MarkRead(d.notes, u, c, i) else d.notes), changed)
  }

  lemma ReceiptKeeps(d: Tables, u: UserId, c: ConnectionId, i: MessageId, read: bool, shares: bool)
    requires Inv(d)
    ensures Inv(Receipt(d, u, c, i, read, shares).0)
  {
    var e := Receipt(d, u, c, i, read, shares).0;
    assert MessageOk(d, i);
    forall x ensures RowOk(e, x) { assert RowOk(d, x); }
    forall x ensures MessageOk(e, x) { assert MessageOk(d, x); }
    forall k ensures NoteOk(e, k) { assert NoteOk(d, k); }
    forall x, y ensures KeysApart(e, x, y) { assert KeysApart(d, x, y); }
    forall k ensures CursorOk(e, k) { assert CursorOk(d, k); }
  }

  /** A valid receipt joins its cursor into the stored one, and the peer is told exactly when a
      cursor strictly advances. */
  lemma ReceiptJoins(d: Tables, u: UserId, c: ConnectionId, i: MessageId, read: bool, shares: bool)
    requires Inv(d) && ReceiptValid(d, u, c, i)
    ensures var (e, told) := Receipt(d, u, c, i, read, shares);
      && CursorOf(e, c, u) == CursorOf(d, c, u).Join(Cursor(i, if read && shares then i else 0))
      && (told <==> CursorOf(e, c, u) != CursorOf(d, c, u))
      && (forall k | k != (c, u) :: CursorOf(e, k.0, k.1) == CursorOf(d, k.0, k.1))
  {
    assert MessageOk(d, i);
  }

  /** The cursor after a sequence of accepted receipts. */
  function JoinAll(start: Cursor, xs: seq<Cursor>): Cursor
    decreases |xs|
  {
    if xs == [] then start else JoinAll(start.Join(xs[0]), xs[1..])
  }

  /** JoinAll is the least upper bound of the start and everything received. */
  lemma {:induction false} JoinAllIsLeast(start: Cursor, xs: seq<Cursor>, bound: Cursor)
    ensures JoinAll(start, xs).Below(bound) <==> start.Below(bound) && forall x | x in xs :: x.Below(bound)
    decreases |xs|
  {
    if xs != [] {
      JoinAllIsLeast(start.Join(xs[0]), xs[1..], bound);
      assert (forall x | x in xs :: x.Below(bound)) <==> xs[0].Below(bound) && forall x | x in xs[1..] :: x.Below(bound) by {
        assert xs == [xs[0]] + xs[1..];
      }
    }
  }

  /** Joins commute and repeat freely. */
  lemma SameCursorsSameJoin(start: Cursor, xs: seq<Cursor>, ys: seq<Cursor>)
    requires forall x :: x in xs <==> x in ys
    ensures JoinAll(start, xs) == JoinAll(start, ys)
  {
    JoinAllIsLeast(start, xs, JoinAll(start, ys));
    JoinAllIsLeast(start, ys, JoinAll(start, ys));
    JoinAllIsLeast(start, ys, JoinAll(start, xs));
    JoinAllIsLeast(start, xs, JoinAll(start, xs));
  }

  lemma {:induction false} JoinAllMore(start: Cursor, xs: seq<Cursor>, x: Cursor)
    ensures JoinAll(start, xs + [x]) == JoinAll(start, xs).Join(x)
    decreases |xs|
  {
    if xs == [] {
      assert xs + [x] == [x];
    } else {
      JoinAllMore(start.Join(xs[0]), xs[1..], x);
      assert (xs + [x])[1..] == xs[1..] + [x];
    }
  }

  // ---- runs of sends and receipts ----

  datatype Transaction =
    | SendMessage(m: Message, newId: MessageId)
    | ReceiptOf(u: UserId, c: ConnectionId, i: MessageId, read: bool, shares: bool)

  ghost predicate Runs(d: Tables, t: Transaction, e: Tables) {
    match t
    case SendMessage(m, newId) => 1 <= newId && newId !in d.messages && exists r :: Sends(d, m, newId, e, r)
    case ReceiptOf(u, c, i, read, shares) => e == Receipt(d, u, c, i, read, shares).0
  }

  /** Any sends and any readers' receipts, valid or not, one after the other. */
  ghost predicate Trace(ds: seq<Tables>, ts: seq<Transaction>) {
    && |ds| == |ts| + 1 && Inv(ds[0])
    && forall k | 0 <= k < |ts| :: Runs(ds[k], ts[k], ds[k + 1])
  }

  predicate TakesReceipt(d: Tables, t: Transaction, u: UserId, c: ConnectionId) {
    t.ReceiptOf? && t.u == u && t.c == c && ReceiptValid(d, u, c, t.i)
  }

  /** The cursors carried by the receipts of this reader that were accepted, in their order. */
  function Accepted(ds: seq<Tables>, ts: seq<Transaction>, u: UserId, c: ConnectionId, n: nat): seq<Cursor>
    requires n <= |ts| < |ds|
  {
    if n == 0 then []
    else Accepted(ds, ts, u, c, n - 1)
         + (if TakesReceipt(ds[n - 1], ts[n - 1], u, c) then [Carried(ts[n - 1].i, ts[n - 1].read, ts[n - 1].shares)] else [])
  }

  lemma TransactionMoves(d: Tables, t: Transaction, e: Tables, u: UserId, c: ConnectionId)
    requires Inv(d) && Runs(d, t, e)
    ensures Inv(e)
    ensures CursorOf(e, c, u) ==
            if TakesReceipt(d, t, u, c) then CursorOf(d, c, u).Join(Carried(t.i, t.read, t.shares)) else CursorOf(d, c, u)
  {
    match t
    case SendMessage(m, newId) =>
      var r :| Sends(d, m, newId, e, r);
      SendKeeps(d, m, newId, e, r);
    case ReceiptOf(v, b, i, read, shares) =>
      ReceiptKeeps(d, v, b, i, read, shares);
      if ReceiptValid(d, v, b, i) { ReceiptJoins(d, v, b, i, read, shares); }
  }

  /** In every trace the stored cursors are the join of the receipts accepted from that reader. */
  lemma {:induction false} CursorJoinsAccepted(ds: seq<Tables>, ts: seq<Transaction>, u: UserId, c: ConnectionId, n: nat)
    requires Trace(ds, ts) && n <= |ts|
    ensures Inv(ds[n])
    ensures CursorOf(ds[n], c, u) == JoinAll(CursorOf(ds[0], c, u), Accepted(ds, ts, u, c, n))
  {
    hide Inv, Sends, Receipt, ReceiptValid, Runs;
    if n > 0 {
      CursorJoinsAccepted(ds, ts, u, c, n - 1);
      assert Runs(ds[n - 1], ts[n - 1], ds[n]);
      TransactionMoves(ds[n - 1], ts[n - 1], ds[n], u, c);
      var before := Accepted(ds, ts, u, c, n - 1);
      if TakesReceipt(ds[n - 1], ts[n - 1], u, c) {
        JoinAllMore(CursorOf(ds[0], c, u), before, Carried(ts[n - 1].i, ts[n - 1].read, ts[n - 1].shares));
      } else {
        assert Accepted(ds, ts, u, c, n) == before;
      }
    }
  }

  /** Receipts form a lattice: two traces in which the same receipts of a reader are accepted, in any
      order and any number of times, with any other traffic in between, leave the same cursors. */
  lemma SameReceiptsSameCursor(ds: seq<Tables>, ts: seq<Transaction>, es: seq<Tables>, us: seq<Transaction>, u: UserId, c: ConnectionId)
    requires Trace(ds, ts) && Trace(es, us) && CursorOf(ds[0], c, u) == CursorOf(es[0], c, u)
    requires forall x :: x in Accepted(ds, ts, u, c, |ts|) <==> x in Accepted(es, us, u, c, |us|)
    ensures CursorOf(ds[|ts|], c, u) == CursorOf(es[|us|], c, u)
  {
    CursorJoinsAccepted(ds, ts, u, c, |ts|);
    CursorJoinsAccepted(es, us, u, c, |us|);
    SameCursorsSameJoin(CursorOf(ds[0], c, u), Accepted(ds, ts, u, c, |ts|), Accepted(es, us, u, c, |us|));
  }

  /** The stored cursors are the least that lie above the first ones and above every accepted receipt. */
  lemma CursorIsLeast(ds: seq<Tables>, ts: seq<Transaction>, u: UserId, c: ConnectionId, bound: Cursor)
    requires Trace(ds, ts)
    ensures CursorOf(ds[|ts|], c, u).Below(bound) <==>
      CursorOf(ds[0], c, u).Below(bound) && forall x | x in Accepted(ds, ts, u, c, |ts|) :: x.Below(bound)
  {
    CursorJoinsAccepted(ds, ts, u, c, |ts|);
    JoinAllIsLeast(CursorOf(ds[0], c, u), Accepted(ds, ts, u, c, |ts|), bound);
  }

  // ---- unread ----

  /** The count on the conversation list is the size of this set. */
  function Unread(d: Tables, u: UserId, c: ConnectionId): set<MessageId> {
    set k | k in d.notes && k.0 == u && d.notes[k].conn == c && !d.notes[k].read :: k.1
  }

  /** What is unread are messages of the peer in this connection. */
  lemma UnreadArePeerMessages(d: Tables, u: UserId, c: ConnectionId, i: MessageId)
    requires Inv(d) && i in Unread(d, u, c)
    ensures c in d.rows && d.rows[c].Has(u)
    ensures i in d.messages && d.messages[i].conn == c && d.messages[i].sender == d.rows[c].Peer(u)
  {
    var k :| k in d.notes && k.0 == u && d.notes[k].conn == c && !d.notes[k].read && k.1 == i;
    assert NoteOk(d, k) && MessageOk(d, i) && RowOk(d, c);
  }

  /** After reading up to X, exactly the still-unread messages beyond X are left, whether or not
      read receipts are shared; other readers and connections are not affected. */
  lemma ReadingLeavesTheRest(d: Tables, u: UserId, c: ConnectionId, x: MessageId, shares: bool)
    requires Inv(d) && ReceiptValid(d, u, c, x)
    ensures var e := Receipt(d, u, c, x, true, shares).0;
      && Unread(e, u, c) == set i | i in Unread(d, u, c) && x < i
      && (forall v, b | v != u || b != c :: Unread(e, v, b) == Unread(d, v, b))
  {
    var e := Receipt(d, u, c, x, true, shares).0;
    forall v, b, i
      ensures i in Unread(e, v, b) <==> i in Unread(d, v, b) && (v == u && b == c ==> x < i)
    {
      assert (v, i) in e.notes <==> (v, i) in d.notes;
      assert i in Unread(e, v, b) <==> (v, i) in e.notes && e.notes[(v, i)].conn == b && !e.notes[(v, i)].read;
      assert i in Unread(d, v, b) <==> (v, i) in d.notes && d.notes[(v, i)].conn == b && !d.notes[(v, i)].read;
    }
  }

  /** A new message makes exactly one more message unread, for the peer only. */
  lemma SendingAddsOneUnread(d: Tables, m: Message, newId: MessageId, e: Tables, u: UserId, c: ConnectionId)
    requires Inv(d) && 1 <= newId && newId !in d.messages && Sends(d, m, newId, e, Stored(newId))
    ensures Unread(e, u, c) == Unread(d, u, c) + (if c == m.conn && u == Reader(d, m) then {newId} else {})
  {
    assert NoteOk(d, (Reader(d, m), newId)) && MessageOk(d, newId);
    forall i ensures i in Unread(e, u, c) <==> i in Unread(d, u, c) || (c == m.conn && u == Reader(d, m) && i == newId) {
      assert i in Unread(e, u, c) <==> (u, i) in e.notes && e.notes[(u, i)].conn == c && !e.notes[(u, i)].read;
      assert i in Unread(d, u, c) <==> (u, i) in d.notes && d.notes[(u, i)].conn == c && !d.notes[(u, i)].read;
    }
  }

  // ---- sends, receipts and unread messages in terms of the tables ----

  /** A send is answered by what is stored: too short or too long, not between two connected people,
      already there under its client id (here or in another connection), or new. */
  lemma SendIsAnswered(d: Tables, m: Message, newId: MessageId, e: Tables, r: Reply)
    requires Inv(d) && 1 <= newId && newId !in d.messages && Sends(d, m, newId, e, r)
    ensures var member := m.conn in d.rows && !d.rows[m.conn].ended && (m.sender == d.rows[m.conn].low || m.sender == d.rows[m.conn].high);
      var same := set i | i in d.messages && d.messages[i].sender == m.sender && d.messages[i].clientId == m.clientId;
      if m.body == "" || |m.body| > 4000 then r == Invalid && e == d
      else if !member then r == Forbidden && e == d
      else if same == {} then
        r == Stored(newId) && e.messages == d.messages[newId := m] && e.rows == d.rows && e.receipts == d.receipts
        && e.notes == d.notes[(if m.sender == d.rows[m.conn].low then d.rows[m.conn].high else d.rows[m.conn].low, newId) := Note(m.conn, false)]
      else exists i :: same == {i} && e == d && r == if d.messages[i].conn == m.conn then Stored(i) else Conflict
  {
    var same := set i | i in d.messages && d.messages[i].sender == m.sender && d.messages[i].clientId == m.clientId;
    forall i ensures i in same <==> HasKey(d, m, i) {}
    if m.conn in d.rows { assert RowOk(d, m.conn) && NoteOk(d, (Reader(d, m), newId)); }
    if i :| i in same {
      forall j | j in same ensures j == i { assert KeysApart(d, i, j); }
      assert same == {i} && MessageOk(d, i);
    }
  }

  /** The receipt names a message that the other member of this connection has sent. */
  predicate Acknowledges(d: Tables, t: Transaction, u: UserId, c: ConnectionId) {
    && t.ReceiptOf? && t.u == u && t.c == c
    && c in d.rows && (u == d.rows[c].low || u == d.rows[c].high)
    && t.i in d.messages && d.messages[t.i].conn == c && d.messages[t.i].sender != u
  }

  /** The reader lets it be seen that the message was read. */
  predicate ShowsReading(d: Tables, t: Transaction, u: UserId, c: ConnectionId) {
    Acknowledges(d, t, u, c) && t.read && t.shares
  }

  /** The reader has read up to a message that is not older than `i`. */
  predicate ReadsPast(d: Tables, t: Transaction, u: UserId, c: ConnectionId, i: MessageId) {
    Acknowledges(d, t, u, c) && t.read && i <= t.i
  }

  /** Messages acknowledged in the first `n` transactions. */
  function Acknowledged(ds: seq<Tables>, ts: seq<Transaction>, u: UserId, c: ConnectionId, n: nat): set<MessageId>
    requires n <= |ts| < |ds|
  {
    set k | 0 <= k < n && Acknowledges(ds[k], ts[k], u, c) :: ts[k].i
  }

  function ShownAsRead(ds: seq<Tables>, ts: seq<Transaction>, u: UserId, c: ConnectionId, n: nat): set<MessageId>
    requires n <= |ts| < |ds|
  {
    set k | 0 <= k < n && ShowsReading(ds[k], ts[k], u, c) :: ts[k].i
  }

  /** The greatest of a first value and some identifiers. */
  predicate IsMax(v: nat, first: nat, ids: set<MessageId>) {
    first <= v && (forall i | i in ids :: i <= v) && (v == first || v in ids)
  }

  lemma MaxMore(v: nat, first: nat, ids: set<MessageId>, more: set<MessageId>, i: MessageId)
    requires IsMax(v, first, ids) && more == ids + {i}
    ensures IsMax(if v < i then i else v, first, more)
  {}

  lemma AcknowledgesIfTaken(d: Tables, t: Transaction, u: UserId, c: ConnectionId)
    requires Inv(d)
    ensures Acknowledges(d, t, u, c) <==> TakesReceipt(d, t, u, c)
  {
    if t.ReceiptOf? { assert RowOk(d, c) && MessageOk(d, t.i); }
  }

  /** One transaction moves the delivered cursor up to the message acknowledged, and the read cursor
      only if the reading is shown. */
  lemma CursorStep(d: Tables, t: Transaction, e: Tables, u: UserId, c: ConnectionId)
    requires Inv(d) && Runs(d, t, e)
    ensures Inv(e)
    ensures var was, now := CursorOf(d, c, u), CursorOf(e, c, u);
      && now.delivered == (if Acknowledges(d, t, u, c) && was.delivered < t.i then t.i else was.delivered)
      && now.read == (if ShowsReading(d, t, u, c) && was.read < t.i then t.i else was.read)
  {
    TransactionMoves(d, t, e, u, c);
    AcknowledgesIfTaken(d, t, u, c);
    hide Inv, Runs, TakesReceipt;
  }

  lemma OneMore(ds: seq<Tables>, ts: seq<Transaction>, u: UserId, c: ConnectionId, n: nat)
    requires n < |ts| < |ds|
    ensures Acknowledged(ds, ts, u, c, n + 1) == Acknowledged(ds, ts, u, c, n) + (if Acknowledges(ds[n], ts[n], u, c) then {ts[n].i} else {})
    ensures ShownAsRead(ds, ts, u, c, n + 1) == ShownAsRead(ds, ts, u, c, n) + (if ShowsReading(ds[n], ts[n], u, c) then {ts[n].i} else {})
  {
    hide Acknowledges;
  }

  /** In every trace the delivered cursor is the greatest message acknowledged, and the read cursor the
      greatest one whose reading was shown: a reader who shares no read receipts keeps theirs. */
  lemma {:induction false} CursorsAreGreatest(ds: seq<Tables>, ts: seq<Transaction>, u: UserId, c: ConnectionId, n: nat)
    requires Trace(ds, ts) && n <= |ts|
    ensures Inv(ds[n])
    ensures IsMax(CursorOf(ds[n], c, u).delivered, CursorOf(ds[0], c, u).delivered, Acknowledged(ds, ts, u, c, n))
    ensures IsMax(CursorOf(ds[n], c, u).read, CursorOf(ds[0], c, u).read, ShownAsRead(ds, ts, u, c, n))
  {
    hide Inv, Runs;
    if n > 0 {
      CursorsAreGreatest(ds, ts, u, c, n - 1);
      assert Runs(ds[n - 1], ts[n - 1], ds[n]);
      CursorStep(ds[n - 1], ts[n - 1], ds[n], u, c);
      OneMore(ds, ts, u, c, n - 1);
      hide Acknowledges, ShowsReading, Acknowledged, ShownAsRead, Trace;
      var was := CursorOf(ds[n - 1], c, u);
      if Acknowledges(ds[n - 1], ts[n - 1], u, c) {
        MaxMore(was.delivered, CursorOf(ds[0], c, u).delivered, Acknowledged(ds, ts, u, c, n - 1), Acknowledged(ds, ts, u, c, n), ts[n - 1].i);
      }
      if ShowsReading(ds[n - 1], ts[n - 1], u, c) {
        MaxMore(was.read, CursorOf(ds[0], c, u).read, ShownAsRead(ds, ts, u, c, n - 1), ShownAsRead(ds, ts, u, c, n), ts[n - 1].i);
      }
    }
  }

  /** A receipt that acknowledges nothing changes nothing and tells nobody; one that does tells the
      peer exactly when it moves a cursor. */
  lemma PeerIsToldOfProgress(d: Tables, t: Transaction, u: UserId, c: ConnectionId)
    requires Inv(d) && t.ReceiptOf? && t.u == u && t.c == c
    ensures var (e, told) := Receipt(d, u, c, t.i, t.read, t.shares);
      && (!Acknowledges(d, t, u, c) ==> e == d && !told)
      && (told <==> CursorOf(e, c, u) != CursorOf(d, c, u))
      && (forall v, b | v != u || b != c :: CursorOf(e, b, v) == CursorOf(d, b, v))
      && e.messages == d.messages && e.rows == d.rows
  {
    AcknowledgesIfTaken(d, t, u, c);
    if ReceiptValid(d, u, c, t.i) {
      ReceiptJoins(d, u, c, t.i, t.read, t.shares);
      forall v, b | v != u || b != c ensures CursorOf(Receipt(d, u, c, t.i, t.read, t.shares).0, b, v) == CursorOf(d, b, v) {
        assert (b, v) != (c, u);
      }
    }
    hide Inv, Acknowledges;
  }

  /** Message `i` is unread for `u` in `c`. */
  lemma UnreadIsNote(d: Tables, u: UserId, c: ConnectionId, i: MessageId)
    ensures i in Unread(d, u, c) <==> (u, i) in d.notes && d.notes[(u, i)].conn == c && !d.notes[(u, i)].read
  {}

  lemma UnreadReceiptStep(d: Tables, t: Transaction, e: Tables, u: UserId, c: ConnectionId, i: MessageId)
    requires Inv(d) && t.ReceiptOf? && Runs(d, t, e)
    ensures i in Unread(e, u, c) <==> i in Unread(d, u, c) && !ReadsPast(d, t, u, c, i)
  {
    AcknowledgesIfTaken(d, t, u, c);
    UnreadIsNote(d, u, c, i);
    UnreadIsNote(e, u, c, i);
    hide Inv, Acknowledges, Unread;
  }

  lemma UnreadSendStep(d: Tables, t: Transaction, e: Tables, u: UserId, c: ConnectionId, i: MessageId)
    requires Inv(d) && t.SendMessage? && Runs(d, t, e)
    ensures i in d.messages ==> (i in Unread(e, u, c) <==> i in Unread(d, u, c))
    ensures i !in d.messages ==>
      (i in Unread(e, u, c) <==> i in e.messages && c in e.rows && e.messages[i].conn == c
                                 && u in {e.rows[c].low, e.rows[c].high} && e.messages[i].sender != u)
    ensures forall j | j in d.messages :: j in e.messages && e.messages[j] == d.messages[j]
    ensures e.rows == d.rows
  {
    var r :| Sends(d, t.m, t.newId, e, r);
    SendIsAnswered(d, t.m, t.newId, e, r);
    UnreadIsNote(d, u, c, i);
    UnreadIsNote(e, u, c, i);
    if i !in d.messages { assert NoteOk(d, (u, i)); }
    if i in e.messages { assert RowOk(d, e.messages[i].conn); }
    hide Inv, Unread, Sends;
  }

  lemma UnreadStep(ds: seq<Tables>, ts: seq<Transaction>, u: UserId, c: ConnectionId, n: nat, i: MessageId)
    requires Trace(ds, ts) && n < |ts| && Inv(ds[n])
    ensures Inv(ds[n + 1])
    ensures ds[n + 1].rows == ds[n].rows && forall j | j in ds[n].messages :: j in ds[n + 1].messages && ds[n + 1].messages[j] == ds[n].messages[j]
    ensures i in ds[n].messages ==> (i in Unread(ds[n + 1], u, c) <==> i in Unread(ds[n], u, c) && !ReadsPast(ds[n], ts[n], u, c, i))
    ensures i !in ds[n].messages ==>
      (i in Unread(ds[n + 1], u, c) <==>
         i in ds[n + 1].messages && c in ds[n + 1].rows && ds[n + 1].messages[i].conn == c
         && u in {ds[n + 1].rows[c].low, ds[n + 1].rows[c].high} && ds[n + 1].messages[i].sender != u)
  {
    assert Runs(ds[n], ts[n], ds[n + 1]);
    TransactionMoves(ds[n], ts[n], ds[n + 1], u, c);
    if ts[n].SendMessage? {
      UnreadSendStep(ds[n], ts[n], ds[n + 1], u, c, i);
    } else {
      UnreadReceiptStep(ds[n], ts[n], ds[n + 1], u, c, i);
      if i !in ds[n].messages && i in Unread(ds[n], u, c) { UnreadArePeerMessages(ds[n], u, c, i); }
    }
    hide Inv, Unread, Acknowledges, Sends;
  }

  /** In every trace a message of the peer is unread exactly until the reader reads up to it or past
      it, with or without sharing that: deliveries, other readers and resends make no difference. */
  lemma {:induction false} UnreadUntilReadPast(ds: seq<Tables>, ts: seq<Transaction>, u: UserId, c: ConnectionId, n: nat, i: MessageId)
    requires Trace(ds, ts) && n <= |ts| && i in ds[n].messages
    requires c in ds[0].rows && u in {ds[0].rows[c].low, ds[0].rows[c].high}
    requires ds[n].messages[i].conn == c && ds[n].messages[i].sender != u
    ensures i in Unread(ds[n], u, c) <==>
      && (i in ds[0].messages ==> i in Unread(ds[0], u, c))
      && forall k | 0 <= k < n :: i in ds[k].messages ==> !ReadsPast(ds[k], ts[k], u, c, i)
  {
    hide Inv, Runs, Unread, ReadsPast;
    if n > 0 {
      CursorsAreGreatest(ds, ts, u, c, n - 1);
      SameRows(ds, ts, n - 1);
      UnreadStep(ds, ts, u, c, n - 1, i);
      if i in ds[n - 1].messages {
        UnreadUntilReadPast(ds, ts, u, c, n - 1, i);
      } else {
        NotThereBefore(ds, ts, n - 1, i);
      }
    }
  }

  lemma {:induction false} SameRows(ds: seq<Tables>, ts: seq<Transaction>, n: nat)
    requires Trace(ds, ts) && n <= |ts|
    ensures ds[n].rows == ds[0].rows
  {
    hide Inv, Runs;
    if n > 0 {
      SameRows(ds, ts, n - 1);
      CursorsAreGreatest(ds, ts, 0, 0, n - 1);
      UnreadStep(ds, ts, 0, 0, n - 1, 0);
    }
  }

  lemma {:induction false} NotThereBefore(ds: seq<Tables>, ts: seq<Transaction>, n: nat, i: MessageId)
    requires Trace(ds, ts) && n <= |ts| && i !in ds[n].messages
    ensures forall k | 0 <= k <= n :: i !in ds[k].messages
  {
    hide Inv, Runs;
    if n > 0 {
      CursorsAreGreatest(ds, ts, 0, 0, n - 1);
      UnreadStep(ds, ts, 0, 0, n - 1, 0);
      NotThereBefore(ds, ts, n - 1, i);
    }
  }

  // ---- the transactions as they run ----

  class MessageStore {
    var rows: map<ConnectionId, Conn>
    var messages: map<MessageId, Message>
    var notes: map<(UserId, MessageId), Note>
    var receipts: map<(ConnectionId, UserId), Cursor>
    var nextId: MessageId

    ghost function View(): Tables
      reads this
    {
      Tables(rows, messages, notes, receipts)
    }

    /** The identity column is ahead of every row. */
    ghost predicate Valid()
      reads this
    {
      Inv(View()) && 1 <= nextId && forall i | i in messages :: i < nextId
    }

    /** The insert takes the next identity value even when the conflict clause answers with an
        earlier row. */
    method Send(m: Message) returns (reply: Reply)
      requires Valid()
      modifies this
      ensures Valid()
      ensures Sends(old(View()), m, old(nextId), View(), reply)
    {
      if !ValidBody(m.body) { return Invalid; }
      if m.conn !in rows || rows[m.conn].ended || !rows[m.conn].Has(m.sender) { return Forbidden; }
      ghost var before := View();
      var id := nextId;
      nextId := nextId + 1;
      if i :| i in messages && SameKey(messages[i], m) {
        assert HasKey(before, m, i);
        if messages[i].conn != m.conn { return Conflict; }
        id := i;
      } else {
        assert !exists i :: HasKey(before, m, i);
        messages := messages[id := m];
      }
      var reader := rows[m.conn].Peer(m.sender);
      if (reader, id) !in notes { notes := notes[(reader, id) := Note(m.conn, false)]; }
      assert Sends(before, m, old(nextId), View(), Stored(id));
      SendKeeps(before, m, old(nextId), View(), Stored(id));
      return Stored(id);
    }

    method SendReceipt(u: UserId, c: ConnectionId, i: MessageId, read: bool, shares: bool) returns (told: bool)
      requires Valid()
      modifies this
      ensures Valid() && nextId == old(nextId)
      ensures (View(), told) == Receipt(old(View()), u, c, i, read, shares)
    {
      ReceiptKeeps(View(), u, c, i, read, shares);
      if c !in rows || !rows[c].Has(u) || i !in messages { return false; }
      if messages[i].conn != c || messages[i].sender != rows[c].Peer(u) { return false; }
      var readId := if read && shares then i else 0;
      if (c, u) !in receipts {
        receipts := receipts[(c, u) := Cursor(i, readId)];
        told := true;
      } else {
        var was := receipts[(c, u)];
        told := was.delivered < i || was.read < readId;
        if told { receipts := receipts[(c, u) := was.Join(Cursor(i, readId))]; }
      }
      if read { notes := MarkRead(notes, u, c, i); }
    }
  }
}

/** Value types shared by every component. Identifiers are UUIDs; their canonical text is
    fixed-width lower-case hexadecimal, so text order is numeric order and a `nat` models both. */
module Basics {
  type UserId = nat
  type SocketId = nat      // one per WebSocket, drawn at random when the socket is accepted
  type MatchId = nat
  type ConnectionId = nat  // a durable relationship, not a socket
  type Millis = nat        // server time in milliseconds; instances may disagree on it

  datatype Option<+T> = None | Some(value: T)

  /** The unordered pair {a, b}, low identifier first. */
  function Pair(a: UserId, b: UserId): (UserId, UserId) {
    if a <= b then (a, b) else (b, a)
  }

  /** A durable connection as the messages and moments queries see it. */
  datatype Conn = Conn(low: UserId, high: UserId, ended: bool) {
    predicate Has(u: UserId) { u == low || u == high }

    function Peer(u: UserId): UserId { if u == low then high else low }
  }

  function EndRows(rows: map<ConnectionId, Conn>, ending: set<ConnectionId>): map<ConnectionId, Conn> {
    map c | c in rows :: if c in ending then rows[c].(ended := true) else rows[c]
  }

  lemma SubsetSize<T>(a: set<T>, b: set<T>)
    requires a <= b
    ensures |a| <= |b|
    ensures |a| == |b| ==> a == b
  {
    assert b == a + (b - a);
  }
}

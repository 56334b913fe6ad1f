/** Paging while messages are being sent: a reader whose pages are read at successive points of any
    execution of the send, removal and block transactions. */
module Paging {
  import opened Basics
  import opened Messaging
  import opened Timeline
  import C = CommitOrder

  /** The committed messages of a connection at one point. */
  function ThreadAt(s: C.Server, c: ConnectionId): Thread { C.MessagesOf(s.d, c) }

  lemma StepGrows(s: C.Server, a: C.Action, t: C.Server, c: ConnectionId)
    requires C.Inv(s) && C.Next(s, a, t)
    ensures Grown(ThreadAt(s, c), ThreadAt(t, c))
  {
    C.MessagesStay(s, a, t);
    if a.CommitSend? {
      forall i ensures i in ThreadAt(s, c) ==> C.At(s, a.tx, a.tx, c, i, 0, 0) { C.InvAt(s, a.tx, a.tx, c, i, 0, 0); }
    }
    hide C.Inv, C.Owns, C.TxsApart, C.Ordered, C.Known;
  }

  lemma GrownOnwards(t: Thread, u: Thread, v: Thread)
    requires Grown(t, u) && Grown(u, v)
    ensures Grown(t, v)
  {
    forall i, j | i in v && i !in t && j in t ensures j < i { assert j in u; }
  }

  /** Between any two points of an execution a thread only grows, by larger identifiers. */
  lemma {:induction false} ThreadGrows(ss: seq<C.Server>, acts: seq<C.Action>, n: nat, k: nat, c: ConnectionId)
    requires C.Execution(ss, acts) && n <= k < |ss|
    ensures Grown(ThreadAt(ss[n], c), ThreadAt(ss[k], c))
    decreases k
  {
    if n == k {
      hide ThreadAt;
    } else {
      hide C.Inv, C.Next, ThreadAt, Grown;
      ThreadGrows(ss, acts, n, k - 1, c);
      C.ExecutionKeeps(ss, acts, k - 1);
      assert C.Next(ss[k - 1], acts[k - 1], ss[k]);
      StepGrows(ss[k - 1], acts[k - 1], ss[k], c);
      GrownOnwards(ThreadAt(ss[n], c), ThreadAt(ss[k - 1], c), ThreadAt(ss[k], c));
    }
  }

  ghost predicate ReadAt(ss: seq<C.Server>, c: ConnectionId, at: seq<nat>, pages: seq<seq<Item>>, k: nat)
    requires |at| == |pages|
  {
    k < |at| ==>
      && at[k] < |ss| && (k + 1 < |at| ==> at[k] <= at[k + 1] && |pages[k]| == PAGE)
      && IsPage(ThreadAt(ss[at[k]], c), Before(pages[..k]), pages[k])
  }

  /** Page k is read at point at[k], below the last message of the page before; only the last page
      may be short. */
  ghost predicate Reads(ss: seq<C.Server>, c: ConnectionId, at: seq<nat>, pages: seq<seq<Item>>) {
    |at| == |pages| && pages != [] && forall k :: ReadAt(ss, c, at, pages, k)
  }

  function Threads(ss: seq<C.Server>, c: ConnectionId, at: seq<nat>): seq<Thread>
    requires forall k | 0 <= k < |at| :: at[k] < |ss|
  {
    seq(|at|, k requires 0 <= k < |at| => ThreadAt(ss[at[k]], c))
  }

  lemma ReadsAreWalk(ss: seq<C.Server>, acts: seq<C.Action>, c: ConnectionId, at: seq<nat>, pages: seq<seq<Item>>)
    requires C.Execution(ss, acts) && Reads(ss, c, at, pages)
    ensures forall k | 0 <= k < |at| :: at[k] < |ss|
    ensures Walk(Threads(ss, c, at), pages)
  {
    forall k | 0 <= k < |at| ensures at[k] < |ss| { assert ReadAt(ss, c, at, pages, k); }
    var ts := Threads(ss, c, at);
    hide C.Execution, IsPage, Grown, Before, ThreadAt;
    forall k: nat ensures PageAt(ts, pages, k) {
      assert ReadAt(ss, c, at, pages, k);
      if k + 1 < |pages| {
        assert ReadAt(ss, c, at, pages, k + 1);
        ThreadGrows(ss, acts, at[k], at[k + 1], c);
      }
    }
    NoZero(ss, acts, at[0], c);
  }

  lemma NoZero(ss: seq<C.Server>, acts: seq<C.Action>, n: nat, c: ConnectionId)
    requires C.Execution(ss, acts) && n < |ss|
    ensures 0 !in ThreadAt(ss[n], c)
  {
    C.ExecutionKeeps(ss, acts, n);
    C.InvAt(ss[n], 0, 0, c, 0, 0, 0);
    hide C.Inv;
  }

  /** Keyset paging in every execution: following `before` down to the first short page shows every
      message that was committed when the first page was read, exactly once and in order, whatever
      commits between the pages; and that short page comes. */
  lemma PagingIsComplete(ss: seq<C.Server>, acts: seq<C.Action>, c: ConnectionId, at: seq<nat>, pages: seq<seq<Item>>)
    requires C.Execution(ss, acts) && Reads(ss, c, at, pages)
    ensures at[0] < |ss| && PAGE * (|pages| - 1) <= |ThreadAt(ss[at[0]], c)|
    ensures |pages[|pages| - 1]| < PAGE ==> Lists(Shown(pages), ThreadAt(ss[at[0]], c))
  {
    hide C.Execution, Walk, Shown, Lists, ReadAt;
    ReadsAreWalk(ss, acts, c, at, pages);
    WalkEnds(Threads(ss, c, at), pages);
    if |pages[|pages| - 1]| < PAGE { WalkIsComplete(Threads(ss, c, at), pages); }
  }
}

/** The fixed-window limiter: INCR, and EXPIRE 60 on the first request of a window. */
module Limiter {
  import opened Basics

  const WINDOW: Millis := 60_000

  datatype Counter = Closed | Open(n: nat, expires: Millis)

  /** One request at time `t`: the counter afterwards, and the count it was given. */
  function Count(c: Counter, t: Millis): Counter {
    if c.Open? && t < c.expires then Open(c.n + 1, c.expires) else Open(1, t + WINDOW)
  }

  predicate Allowed(c: Counter, t: Millis, maximum: nat) { Count(c, t).n <= maximum }

  predicate Nondecreasing(ts: seq<Millis>) {
    forall i, j | 0 <= i < j < |ts| :: ts[i] <= ts[j]
  }

  /** How many requests of the trace are let through at a time in [lo, hi). */
  function Admitted(c: Counter, ts: seq<Millis>, maximum: nat, lo: Millis, hi: Millis): nat
    decreases |ts|
  {
    if ts == [] then 0
    else (if lo <= ts[0] < hi && Allowed(c, ts[0], maximum) then 1 else 0) + Admitted(Count(c, ts[0]), ts[1..], maximum, lo, hi)
  }

  function Room(n: nat, maximum: nat): nat { if n <= maximum then maximum - n else 0 }

  lemma {:induction false} NothingAfterHi(c: Counter, ts: seq<Millis>, maximum: nat, lo: Millis, hi: Millis)
    requires forall i | 0 <= i < |ts| :: hi <= ts[i]
    ensures Admitted(c, ts, maximum, lo, hi) == 0
    decreases |ts|
  {
    if ts != [] {
      NothingAfterHi(Count(c, ts[0]), ts[1..], maximum, lo, hi);
    }
  }

  /** Inside one window only its remaining room is given out. */
  lemma {:induction false} RestOfWindow(c: Counter, ts: seq<Millis>, maximum: nat, lo: Millis, hi: Millis)
    requires c.Open? && hi <= c.expires && Nondecreasing(ts)
    ensures Admitted(c, ts, maximum, lo, hi) <= Room(c.n, maximum)
    decreases |ts|
  {
    if ts != [] {
      if ts[0] < c.expires {
        RestOfWindow(Count(c, ts[0]), ts[1..], maximum, lo, hi);
      } else {
        NothingAfterHi(c, ts, maximum, lo, hi);
      }
    }
  }

  /** A window opened inside the interval outlasts it. */
  lemma OpenedInside(c: Counter, ts: seq<Millis>, maximum: nat, lo: Millis, hi: Millis)
    requires ts != [] && Nondecreasing(ts) && lo <= ts[0] && hi <= lo + WINDOW
    requires c.Closed? || c.expires <= ts[0]
    ensures Admitted(c, ts, maximum, lo, hi) <= maximum
  {
    RestOfWindow(Count(c, ts[0]), ts[1..], maximum, lo, hi);
  }

  lemma {:induction false} FromInside(c: Counter, ts: seq<Millis>, maximum: nat, lo: Millis, hi: Millis)
    requires c.Open? && Nondecreasing(ts) && hi <= lo + WINDOW && forall i | 0 <= i < |ts| :: lo <= ts[i]
    ensures Admitted(c, ts, maximum, lo, hi) <= Room(c.n, maximum) + maximum
    decreases |ts|
  {
    if ts != [] {
      if ts[0] < c.expires {
        FromInside(Count(c, ts[0]), ts[1..], maximum, lo, hi);
      } else {
        OpenedInside(c, ts, maximum, lo, hi);
      }
    }
  }

  /** The limiter bound: any interval of 60 seconds admits at most 2 * maximum - 1 requests. */
  lemma {:induction false} IntervalBound(c: Counter, ts: seq<Millis>, maximum: nat, lo: Millis, hi: Millis)
    requires Nondecreasing(ts) && hi <= lo + 60_000 && 1 <= maximum && (c.Open? ==> 1 <= c.n)
    ensures Admitted(c, ts, maximum, lo, hi) <= 2 * maximum - 1
    decreases |ts|
  {
    if ts != [] {
      if ts[0] < lo {
        IntervalBound(Count(c, ts[0]), ts[1..], maximum, lo, hi);
      } else if c.Open? {
        FromInside(c, ts, maximum, lo, hi);
      } else {
        OpenedInside(c, ts, maximum, lo, hi);
      }
    }
  }

  function Times(t: Millis, k: nat): seq<Millis> { seq(k, i => t) }

  lemma {:induction false} Burst(c: Counter, t: Millis, k: nat, rest: seq<Millis>, maximum: nat, lo: Millis, hi: Millis)
    requires c.Open? && t < c.expires && lo <= t < hi && c.n + k <= maximum
    ensures Admitted(c, Times(t, k) + rest, maximum, lo, hi) == k + Admitted(Open(c.n + k, c.expires), rest, maximum, lo, hi)
    decreases k
  {
    if k == 0 {
      assert Times(t, 0) + rest == rest;
    } else {
      assert (Times(t, k) + rest)[0] == t && (Times(t, k) + rest)[1..] == Times(t, k - 1) + rest;
      Burst(Count(c, t), t, k - 1, rest, maximum, lo, hi);
    }
  }

  /** Exactly the room of a window is given out: a window admits min(requests, maximum). */
  lemma {:induction false} WindowAdmits(c: Counter, ts: seq<Millis>, maximum: nat)
    requires c.Open? && forall i | 0 <= i < |ts| :: ts[i] < c.expires
    ensures Admitted(c, ts, maximum, 0, c.expires) == if |ts| <= Room(c.n, maximum) then |ts| else Room(c.n, maximum)
    decreases |ts|
  {
    if ts != [] {
      WindowAdmits(Count(c, ts[0]), ts[1..], maximum);
    }
  }

  /** The bound is reached: open a window, fill it in its last millisecond, and fill the next one
      in its first. */
  lemma BoundIsTight(maximum: nat) returns (ts: seq<Millis>)
    requires 1 <= maximum
    ensures Nondecreasing(ts)
    ensures Admitted(Closed, ts, maximum, 59_999, 119_999) == 2 * maximum - 1
  {
    var second := [WINDOW] + (Times(WINDOW, maximum - 1) + []);
    ts := [0] + (Times(WINDOW - 1, maximum - 1) + second);
    assert ts[1..] == Times(WINDOW - 1, maximum - 1) + second;
    Burst(Open(1, WINDOW), WINDOW - 1, maximum - 1, second, maximum, WINDOW - 1, 2 * WINDOW - 1);
    assert second[1..] == Times(WINDOW, maximum - 1) + [];
    Burst(Open(1, 2 * WINDOW), WINDOW, maximum - 1, [], maximum, WINDOW - 1, 2 * WINDOW - 1);
    forall i, j | 0 <= i < j < |ts| ensures ts[i] <= ts[j] {
      assert forall k | 0 <= k < |ts| :: ts[k] == if k == 0 then 0 else if k < maximum then WINDOW - 1 else WINDOW;
    }
  }

  /** The shared counters, one per bucket and account. */
  class Counters {
    var now: Millis
    var counters: map<(string, UserId), Counter>

    ghost function At(bucket: string, u: UserId): Counter
      reads this
    {
      if (bucket, u) in counters then counters[(bucket, u)] else Closed
    }

    /** A counter that exists has counted at least one request. */
    ghost predicate Valid()
      reads this
    {
      forall k | k in counters :: counters[k].Open? ==> 1 <= counters[k].n
    }

    method Allow(bucket: string, u: UserId, maximum: nat) returns (ok: bool)
      requires Valid()
      modifies this`counters
      ensures Valid()
      ensures ok == Allowed(old(At(bucket, u)), now, maximum)
      ensures At(bucket, u) == Count(old(At(bucket, u)), now)
      ensures forall k | k != (bucket, u) :: At(k.0, k.1) == old(At(k.0, k.1))
    {
      var key := (bucket, u);
      var n, expires := 0, 0;
      if key in counters && counters[key].Open? && now < counters[key].expires {
        n, expires := counters[key].n, counters[key].expires;
      }
      n := n + 1;
      if n == 1 { expires := now + WINDOW; }
      counters := counters[key := Open(n, expires)];
      return n <= maximum;
    }
  }
}

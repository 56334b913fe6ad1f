/** Call leases: a call key and one busy key per party, each with a time to live. A key lives
    while the clock is before its expiry. */
module Calls {
  import opened Basics

  type CallId = nat

  const RINGING_TTL: Millis := 45_000
  const RINGING_LEASE: Millis := 50_000
  const ACTIVE_TTL: Millis := 75_000
  const ACTIVE_LEASE: Millis := 80_000
  const MARGIN: Millis := 5_000

  datatype Busy = Busy(call: CallId, expires: Millis)

  datatype CallKey = CallKey(active: bool, expires: Millis)

  datatype Parties = Parties(caller: UserId, callee: UserId) {
    predicate Has(u: UserId) { u == caller || u == callee }
  }

  /** After the reservation the notification row is inserted: the call is then announced, or
      rolled back if the insert failed. Nobody knows the id of an unannounced call. */
  datatype Status = Pending(since: Millis) | Announced | RolledBack

  /** `parties` and `status` are history, kept for every call ever reserved. */
  datatype Leases = Leases(
    now: Millis, busy: map<UserId, Busy>, calls: map<CallId, CallKey>,
    parties: map<CallId, Parties>, status: map<CallId, Status>)
  {
    predicate IsBusy(u: UserId) { u in busy && now < busy[u].expires }

    predicate Live(id: CallId) { id in calls && now < calls[id].expires }

    predicate IsParty(u: UserId, id: CallId) { id in parties && parties[id].Has(u) }

    predicate Holds(u: UserId, id: CallId) { IsBusy(u) && busy[u].call == id }
  }

  // ---- scripts ----

  function Reserve(l: Leases, id: CallId, p: Parties): (Leases, int) {
    if l.IsBusy(p.caller) || l.IsBusy(p.callee) then (l, 0)
    else
      var lease := Busy(id, l.now + RINGING_LEASE);
      (l.(busy := l.busy[p.caller := lease][p.callee := lease],
          calls := l.calls[id := CallKey(false, l.now + RINGING_TTL)],
          parties := l.parties[id := p], status := l.status[id := Pending(l.now)]), 1)
  }

  /** EXPIRE: renews a key only if it is still there, whoever it belongs to. */
  function Renew(l: Leases, u: UserId): map<UserId, Busy> {
    if l.IsBusy(u) then l.busy[u := l.busy[u].(expires := l.now + ACTIVE_LEASE)] else l.busy
  }

  function Accept(l: Leases, id: CallId, p: Parties): (Leases, int) {
    if !(l.Live(id) && !l.calls[id].active) then (l, 0)
    else
      var c := l.(calls := l.calls[id := CallKey(true, l.now + ACTIVE_TTL)]);
      var d := c.(busy := Renew(c, p.caller));
      (d.(busy := Renew(d, p.callee)), 1)
  }

  function Release(l: Leases, u: UserId, id: CallId): map<UserId, Busy> {
    if l.Holds(u, id) then l.busy - {u} else l.busy
  }

  function End(l: Leases, id: CallId, p: Parties): (Leases, int) {
    var c := l.(calls := l.calls - {id});
    var d := c.(busy := Release(c, p.caller, id));
    (d.(busy := Release(d, p.callee, id)), 1)
  }

  /** Renew the own lease, or repair it with SET NX. */
  function Beat(l: Leases, u: UserId, id: CallId): map<UserId, Busy> {
    if l.Holds(u, id) then Renew(l, u)
    else if l.IsBusy(u) then l.busy
    else l.busy[u := Busy(id, l.now + ACTIVE_LEASE)]
  }

  function Heartbeat(l: Leases, id: CallId, p: Parties): (Leases, int) {
    if !(l.Live(id) && l.calls[id].active) then (l, 0)
    else
      var c := l.(calls := l.calls[id := CallKey(true, l.now + ACTIVE_TTL)]);
      var d := c.(busy := Beat(c, p.caller, id));
      (d.(busy := Beat(d, p.callee, id)), 1)
  }

  /** The compensation for a failed insert deletes all three keys without comparing them. */
  function Rollback(l: Leases, id: CallId, p: Parties): Leases {
    l.(calls := l.calls - {id}, busy := l.busy - {p.caller, p.callee}, status := l.status[id := RolledBack])
  }

  // ---- steps ----

  datatype Step =
    | DoReserve(id: CallId, p: Parties)
    | DoAnnounce(id: CallId)
    | DoRollback(id: CallId)
    | DoAccept(id: CallId)
    | DoEnd(id: CallId)
    | DoHeartbeat(id: CallId)
    | Tick(later: Millis)

  /** Fresh ids, two distinct parties, actions only on announced calls. The compensation of a
      failed insert may run at any time. */
  predicate Legal(l: Leases, t: Step) {
    match t
    case DoReserve(id, p) => id !in l.parties && p.caller != p.callee
    case DoAnnounce(id) => id in l.status && id in l.parties && l.status[id].Pending?
    case DoRollback(id) => id in l.status && id in l.parties && l.status[id].Pending?
    case DoAccept(id) => id in l.status && id in l.parties && l.status[id].Announced?
    case DoEnd(id) => id in l.status && id in l.parties && l.status[id].Announced?
    case DoHeartbeat(id) => id in l.status && id in l.parties && l.status[id].Announced?
    case Tick(later) => true
  }

  function Apply(l: Leases, t: Step): Leases
    requires Legal(l, t)
  {
    match t
    case DoReserve(id, p) => Reserve(l, id, p).0
    case DoAnnounce(id) => l.(status := l.status[id := Announced])
    case DoRollback(id) => Rollback(l, id, l.parties[id])
    case DoAccept(id) => Accept(l, id, l.parties[id]).0
    case DoEnd(id) => End(l, id, l.parties[id]).0
    case DoHeartbeat(id) => Heartbeat(l, id, l.parties[id]).0
    case Tick(later) => l.(now := l.now + later)
  }

  // ---- invariant ----

  /** A live call owns both busy keys, and each outlives it by exactly the margin. */
  ghost predicate CallOk(l: Leases, id: CallId) {
    && (id in l.parties ==> l.parties[id].caller != l.parties[id].callee)
    && (id in l.calls ==> id in l.parties)
    && (l.Live(id) ==>
          && l.Holds(l.parties[id].caller, id) && l.busy[l.parties[id].caller].expires == l.calls[id].expires + MARGIN
          && l.Holds(l.parties[id].callee, id) && l.busy[l.parties[id].callee].expires == l.calls[id].expires + MARGIN)
    && (id in l.status && l.status[id].Pending? ==>
          id in l.calls && l.calls[id] == CallKey(false, l.status[id].since + RINGING_TTL))
  }

  /** A busy user is a party of the call named, which is alive or lapsed less than the margin ago. */
  ghost predicate UserOk(l: Leases, u: UserId) {
    l.IsBusy(u) ==>
      var id := l.busy[u].call;
      && id in l.parties && l.parties[id].Has(u)
      && (l.Live(id) || l.busy[u].expires <= l.now + MARGIN)
  }

  ghost predicate Inv(l: Leases) {
    (forall id :: CallOk(l, id)) && (forall u :: UserOk(l, u))
  }

  lemma InvAt(l: Leases, id: CallId, u: UserId)
    requires Inv(l)
    ensures CallOk(l, id) && UserOk(l, u)
  {
    hide CallOk, UserOk;
  }

  /** What the invariant says about every key that a step on call `k` can bear on. */
  lemma Nearby(l: Leases, k: CallId, id: CallId, u: UserId)
    requires Inv(l)
    ensures CallOk(l, id) && UserOk(l, u) && CallOk(l, k)
    ensures u in l.busy ==> CallOk(l, l.busy[u].call)
    ensures id in l.parties ==> UserOk(l, l.parties[id].caller) && UserOk(l, l.parties[id].callee)
    ensures k in l.parties ==> UserOk(l, l.parties[k].caller) && UserOk(l, l.parties[k].callee)
  {
    hide CallOk, UserOk;
  }

  lemma ReserveAt(l: Leases, k: CallId, p: Parties, id: CallId, u: UserId)
    requires Inv(l) && k !in l.parties && p.caller != p.callee
    ensures CallOk(Reserve(l, k, p).0, id) && UserOk(Reserve(l, k, p).0, u)
  {
    Nearby(l, k, id, u);
  }

  lemma AnnounceAt(l: Leases, k: CallId, id: CallId, u: UserId)
    requires Inv(l)
    ensures CallOk(l.(status := l.status[k := Announced]), id) && UserOk(l.(status := l.status[k := Announced]), u)
  {
    Nearby(l, k, id, u);
  }

  lemma AcceptAt(l: Leases, k: CallId, id: CallId, u: UserId)
    requires Inv(l) && k in l.parties && k in l.status && l.status[k].Announced?
    ensures CallOk(Accept(l, k, l.parties[k]).0, id) && UserOk(Accept(l, k, l.parties[k]).0, u)
  {
    Nearby(l, k, id, u);
  }

  lemma EndAt(l: Leases, k: CallId, id: CallId, u: UserId)
    requires Inv(l) && k in l.parties && k in l.status && l.status[k].Announced?
    ensures CallOk(End(l, k, l.parties[k]).0, id) && UserOk(End(l, k, l.parties[k]).0, u)
  {
    Nearby(l, k, id, u);
  }

  lemma HeartbeatAt(l: Leases, k: CallId, id: CallId, u: UserId)
    requires Inv(l) && k in l.parties && k in l.status && l.status[k].Announced?
    ensures CallOk(Heartbeat(l, k, l.parties[k]).0, id) && UserOk(Heartbeat(l, k, l.parties[k]).0, u)
  {
    Nearby(l, k, id, u);
  }

  /** Nobody else's live call rests on the keys the compensation deletes. */
  predicate RollbackIsSafe(l: Leases, k: CallId)
    requires k in l.parties
  {
    var p := l.parties[k];
    && (l.IsBusy(p.caller) && l.Live(l.busy[p.caller].call) ==> l.busy[p.caller].call == k)
    && (l.IsBusy(p.callee) && l.Live(l.busy[p.callee].call) ==> l.busy[p.callee].call == k)
  }

  lemma RollbackAt(l: Leases, k: CallId, id: CallId, u: UserId)
    requires Inv(l) && k in l.parties && RollbackIsSafe(l, k)
    ensures CallOk(Rollback(l, k, l.parties[k]), id) && UserOk(Rollback(l, k, l.parties[k]), u)
  {
    Nearby(l, k, id, u);
  }

  /** A compensation, if that is what the step is, deletes no other live call's lease. */
  predicate Safe(l: Leases, t: Step)
    requires Legal(l, t)
  {
    t.DoRollback? ==> RollbackIsSafe(l, t.id)
  }

  /** A compensation runs while its call is still ringing. */
  predicate Timely(l: Leases, t: Step)
    requires Legal(l, t)
  {
    t.DoRollback? ==> l.now < l.status[t.id].since + RINGING_TTL
  }

  /** Within the ringing time the deleted leases are still the call's own. */
  lemma TimelyRollbackIsSafe(l: Leases, k: CallId)
    requires Inv(l) && Legal(l, DoRollback(k)) && Timely(l, DoRollback(k))
    ensures RollbackIsSafe(l, k)
  {
    Nearby(l, k, k, 0);
  }

  lemma TickAt(l: Leases, later: Millis, id: CallId, u: UserId)
    requires Inv(l)
    ensures CallOk(l.(now := l.now + later), id) && UserOk(l.(now := l.now + later), u)
  {
    Nearby(l, id, id, u);
  }

  lemma StepAt(l: Leases, t: Step, id: CallId, u: UserId)
    requires Inv(l) && Legal(l, t) && Safe(l, t)
    ensures CallOk(Apply(l, t), id) && UserOk(Apply(l, t), u)
  {
    hide CallOk, UserOk, Reserve, Accept, End, Heartbeat, Rollback;
    match t
    case DoReserve(k, p) => ReserveAt(l, k, p, id, u);
    case DoAnnounce(k) => AnnounceAt(l, k, id, u);
    case DoRollback(k) => RollbackAt(l, k, id, u);
    case DoAccept(k) => AcceptAt(l, k, id, u);
    case DoEnd(k) => EndAt(l, k, id, u);
    case DoHeartbeat(k) => HeartbeatAt(l, k, id, u);
    case Tick(later) => TickAt(l, later, id, u);
  }

  lemma StepKeeps(l: Leases, t: Step)
    requires Inv(l) && Legal(l, t) && Safe(l, t)
    ensures Inv(Apply(l, t))
  {
    hide CallOk, UserOk, Apply;
    forall id ensures CallOk(Apply(l, t), id) { StepAt(l, t, id, 0); }
    forall u ensures UserOk(Apply(l, t), u) { StepAt(l, t, 0, u); }
  }

  const START := Leases(0, map[], map[], map[], map[])

  ghost predicate LegalRun(l: Leases, ts: seq<Step>)
    decreases |ts|
  {
    ts != [] ==> Legal(l, ts[0]) && LegalRun(Apply(l, ts[0]), ts[1..])
  }

  ghost function Run(l: Leases, ts: seq<Step>): Leases
    requires LegalRun(l, ts)
    decreases |ts|
  {
    if ts == [] then l else Run(Apply(l, ts[0]), ts[1..])
  }

  /** A legal run in which every compensation is safe. */
  ghost predicate SafeRun(l: Leases, ts: seq<Step>)
    decreases |ts|
  {
    ts != [] ==> Legal(l, ts[0]) && Safe(l, ts[0]) && SafeRun(Apply(l, ts[0]), ts[1..])
  }

  /** A legal run in which every compensation is timely. */
  ghost predicate TimelyRun(l: Leases, ts: seq<Step>)
    decreases |ts|
  {
    ts != [] ==> Legal(l, ts[0]) && Timely(l, ts[0]) && TimelyRun(Apply(l, ts[0]), ts[1..])
  }

  lemma {:induction false} SafeRunIsLegal(l: Leases, ts: seq<Step>)
    requires SafeRun(l, ts)
    ensures LegalRun(l, ts)
    decreases |ts|
  {
    if ts != [] { SafeRunIsLegal(Apply(l, ts[0]), ts[1..]); }
  }

  lemma {:induction false} TimelyRunIsSafe(l: Leases, ts: seq<Step>)
    requires Inv(l) && TimelyRun(l, ts)
    ensures SafeRun(l, ts)
    decreases |ts|
  {
    if ts != [] {
      if ts[0].DoRollback? { TimelyRollbackIsSafe(l, ts[0].id); }
      StepKeeps(l, ts[0]);
      TimelyRunIsSafe(Apply(l, ts[0]), ts[1..]);
    }
  }

  lemma {:induction false} RunKeeps(l: Leases, ts: seq<Step>)
    requires Inv(l) && LegalRun(l, ts) && SafeRun(l, ts)
    ensures Inv(Run(l, ts))
    decreases |ts|
  {
    if ts != [] {
      StepKeeps(l, ts[0]);
      RunKeeps(Apply(l, ts[0]), ts[1..]);
    }
  }

  /** The user is a party of two different live calls. */
  predicate InTwoCalls(l: Leases, u: UserId, id: CallId, other: CallId) {
    id != other && l.Live(id) && l.Live(other) && l.IsParty(u, id) && l.IsParty(u, other)
  }

  /** Mutual exclusion over every run whose compensations are safe: nobody is a party of two live
      calls, a live call's leases are both its own and expire exactly the margin after it. */
  lemma NobodyInTwoCalls(ts: seq<Step>, id: CallId, other: CallId, u: UserId)
    requires LegalRun(START, ts) && SafeRun(START, ts)
    ensures var l := Run(START, ts);
      && !InTwoCalls(l, u, id, other)
      && (l.Live(id) && l.IsParty(u, id) ==> l.Holds(u, id) && l.busy[u].expires == l.calls[id].expires + MARGIN)
    ensures Run(START, ts).Live(id) ==> id in Run(START, ts).parties
  {
    RunKeeps(START, ts);
    InvAt(Run(START, ts), id, u);
    InvAt(Run(START, ts), other, u);
  }

  /** In particular when every compensation runs within the ringing time of its call. */
  lemma TimelyRunsExclude(ts: seq<Step>, id: CallId, other: CallId, u: UserId)
    requires TimelyRun(START, ts)
    ensures LegalRun(START, ts) && !InTwoCalls(Run(START, ts), u, id, other)
  {
    TimelyRunIsSafe(START, ts);
    SafeRunIsLegal(START, ts);
    NobodyInTwoCalls(ts, id, other, u);
  }

  /** The repair branch of the heartbeat (SET NX) is never taken: whenever the script passes its
      state check, both leases already hold the call. */
  lemma RepairNeverFires(l: Leases, id: CallId)
    requires Inv(l) && Legal(l, DoHeartbeat(id)) && Heartbeat(l, id, l.parties[id]).1 == 1
    ensures l.Holds(l.parties[id].caller, id) && l.Holds(l.parties[id].callee, id)
    ensures Heartbeat(l, id, l.parties[id]).0.busy ==
      l.busy[l.parties[id].caller := Busy(id, l.now + ACTIVE_LEASE)][l.parties[id].callee := Busy(id, l.now + ACTIVE_LEASE)]
  {
    InvAt(l, id, 0);
  }

  /** A call that is known and no longer alive, whose leases run out by `until`. */
  ghost predicate Dead(l: Leases, id: CallId, until: Millis) {
    id in l.parties && !l.Live(id) && forall u | l.Holds(u, id) :: l.busy[u].expires <= until
  }

  lemma DeadStaysDead(l: Leases, t: Step, id: CallId, until: Millis)
    requires Inv(l) && Legal(l, t) && Safe(l, t) && Dead(l, id, until)
    ensures Dead(Apply(l, t), id, until)
  {
    var e := Apply(l, t);
    if !t.Tick? { Nearby(l, t.id, id, 0); }
    forall u | e.Holds(u, id) ensures e.busy[u].expires <= until {
      assert l.Holds(u, id);
      InvAt(l, id, u);
    }
  }

  lemma {:induction false} DeadOverRun(l: Leases, ts: seq<Step>, id: CallId, until: Millis)
    requires Inv(l) && LegalRun(l, ts) && SafeRun(l, ts) && Dead(l, id, until)
    ensures Dead(Run(l, ts), id, until)
    decreases |ts|
  {
    if ts != [] {
      DeadStaysDead(l, ts[0], id, until);
      StepKeeps(l, ts[0]);
      DeadOverRun(Apply(l, ts[0]), ts[1..], id, until);
    }
  }

  /** A call that has lapsed at time T blocks nobody from T + 5 s on, whatever happens in between. */
  lemma LapsedCallFreesItsParties(l: Leases, ts: seq<Step>, id: CallId, u: UserId)
    requires Inv(l) && LegalRun(l, ts) && SafeRun(l, ts) && id in l.parties && !l.Live(id)
    requires Run(l, ts).now >= l.now + MARGIN
    ensures !Run(l, ts).Holds(u, id)
  {
    forall w | l.Holds(w, id) ensures l.busy[w].expires <= l.now + MARGIN { InvAt(l, id, w); }
    DeadOverRun(l, ts, id, l.now + MARGIN);
  }

  /** The unconditional compensation is harmless exactly when no other live call rests on the keys
      it deletes; comparing the key with the call's own id before deleting would ensure this. */
  lemma RollbackKeepsExactlyWhenSafe(l: Leases, k: CallId)
    requires Inv(l) && k in l.parties
    ensures Inv(Rollback(l, k, l.parties[k])) <==> RollbackIsSafe(l, k)
  {
    var e := Rollback(l, k, l.parties[k]);
    if RollbackIsSafe(l, k) {
      forall id ensures CallOk(e, id) { RollbackAt(l, k, id, 0); }
      forall u ensures UserOk(e, u) { RollbackAt(l, k, 0, u); }
    } else {
      var p := l.parties[k];
      var u := if l.IsBusy(p.caller) && l.Live(l.busy[p.caller].call) && l.busy[p.caller].call != k then p.caller else p.callee;
      InvAt(l, l.busy[u].call, u);
      assert !CallOk(e, l.busy[u].call);
    }
  }

  lemma {:induction false} FreshNumber(used: set<nat>) returns (n: nat)
    ensures forall m | m in used :: m < n
    decreases |used|
  {
    n := 0;
    if used != {} {
      var x :| x in used;
      var rest := FreshNumber(used - {x});
      n := if rest <= x then x + 1 else rest;
      forall m | m in used ensures m < n { assert m == x || m in used - {x}; }
    }
  }

  /** Some continuation without a further unsafe compensation puts a user into two calls. */
  ghost predicate CanDouble(l: Leases) {
    exists ts, u, id, other :: LegalRun(l, ts) && SafeRun(l, ts) && InTwoCalls(Run(l, ts), u, id, other)
  }

  /** After an unsafe compensation one more invitation is enough. */
  lemma UnsafeRollbackDoubles(l: Leases, k: CallId)
    requires Inv(l) && Legal(l, DoRollback(k)) && !RollbackIsSafe(l, k)
    ensures CanDouble(Apply(l, DoRollback(k)))
  {
    var p := l.parties[k];
    var u := if l.IsBusy(p.caller) && l.Live(l.busy[p.caller].call) && l.busy[p.caller].call != k then p.caller else p.callee;
    var other := l.busy[u].call;
    InvAt(l, other, u);
    var e := Apply(l, DoRollback(k));
    var id := FreshNumber(l.parties.Keys + l.calls.Keys + {other});
    var v := FreshNumber(l.busy.Keys + {u});
    var t := DoReserve(id, Parties(u, v));
    assert id !in l.parties && id != other && v !in e.busy && v != u;
    var ts := [t];
    assert ts[1..] == [] && Run(e, ts) == Apply(e, t);
    assert LegalRun(e, ts) && SafeRun(e, ts);
    assert InTwoCalls(Apply(e, t), u, id, other);
  }

  /** Exclusion after a compensation, in every continuation, is exactly its safety, which the
      script could check by comparing each busy key with the call before deleting it. */
  lemma ExclusionExactlyWhenSafe(l: Leases, k: CallId)
    requires Inv(l) && Legal(l, DoRollback(k))
    ensures CanDouble(Apply(l, DoRollback(k))) <==> !RollbackIsSafe(l, k)
  {
    var e := Apply(l, DoRollback(k));
    if !RollbackIsSafe(l, k) {
      UnsafeRollbackDoubles(l, k);
    } else if CanDouble(e) {
      var ts, u, id, other :| LegalRun(e, ts) && SafeRun(e, ts) && InTwoCalls(Run(e, ts), u, id, other);
      RollbackKeepsExactlyWhenSafe(l, k);
      RunKeeps(e, ts);
      InvAt(Run(e, ts), id, u);
      InvAt(Run(e, ts), other, u);
    }
  }

  /** A late compensation in a run: call 1 of users 10 and 20 is reserved and its insert hangs
      until the lease has run out; 10 then calls 30, call 1 is compensated, and 10 can be
      invited again while its call with 30 is alive. */
  lemma LateRollbackBreaksExclusion() returns (ts: seq<Step>, again: Step)
    ensures LegalRun(START, ts)
    ensures var l := Run(START, ts);
      && Legal(l, DoRollback(1)) && !Timely(l, DoRollback(1)) && !RollbackIsSafe(l, 1)
      && Legal(Apply(l, DoRollback(1)), again) && again.DoReserve?
      && InTwoCalls(Apply(Apply(l, DoRollback(1)), again), 10, 2, 3)
  {
    ts := [DoReserve(1, Parties(10, 20)), Tick(RINGING_LEASE), DoReserve(2, Parties(10, 30))];
    again := DoReserve(3, Parties(10, 40));
    var a := Apply(START, ts[0]);
    var b := Apply(a, ts[1]);
    var c := Apply(b, ts[2]);
    assert c.busy[10].call == 2 && c.Live(2) && c.status[1] == Pending(0) && c.now == RINGING_LEASE;
    assert ts[1..] == [ts[1], ts[2]] && ts[1..][1..] == [ts[2]] && ts[1..][1..][1..] == [];
    assert LegalRun(b, [ts[2]]) && Run(b, [ts[2]]) == c;
    assert LegalRun(a, [ts[1], ts[2]]) && Run(a, [ts[1], ts[2]]) == c;
  }

  // ---- the scripts as they run ----

  class CallStore {
    var now: Millis
    var busy: map<UserId, Busy>
    var calls: map<CallId, CallKey>
    ghost var parties: map<CallId, Parties>
    ghost var status: map<CallId, Status>

    ghost function View(): Leases
      reads this
    {
      Leases(now, busy, calls, parties, status)
    }

    predicate IsBusy(u: UserId)
      reads this
    {
      u in busy && now < busy[u].expires
    }

    predicate Live(id: CallId)
      reads this
    {
      id in calls && now < calls[id].expires
    }

    method ReserveCall(id: CallId, p: Parties) returns (reply: int)
      modifies this
      ensures (View(), reply) == Reserve(old(View()), id, p)
    {
      if IsBusy(p.caller) || IsBusy(p.callee) { return 0; }
      busy := busy[p.caller := Busy(id, now + RINGING_LEASE)];
      busy := busy[p.callee := Busy(id, now + RINGING_LEASE)];
      calls := calls[id := CallKey(false, now + RINGING_TTL)];
      parties := parties[id := p];
      status := status[id := Pending(now)];
      return 1;
    }

    method Compensate(id: CallId, p: Parties)
      modifies this
      ensures View() == Rollback(old(View()), id, p)
    {
      calls := calls - {id};
      busy := busy - {p.caller, p.callee};
      status := status[id := RolledBack];
    }

    /** Reserve, insert the notification row, and compensate if the row cannot be inserted. */
    method Invite(id: CallId, p: Parties, inserted: bool) returns (httpStatus: int)
      modifies this
      ensures var (l, r) := Reserve(old(View()), id, p);
        if r == 0 then View() == old(View()) && httpStatus == 409
        else if inserted then View() == l.(status := l.status[id := Announced]) && httpStatus == 200
        else View() == Rollback(l, id, p) && httpStatus == 500
    {
      var result := ReserveCall(id, p);
      if result != 1 { return 409; }
      if !inserted { Compensate(id, p); return 500; }
      status := status[id := Announced];
      return 200;
    }

    method Expire(u: UserId)
      modifies this`busy
      ensures busy == Renew(old(View()), u)
    {
      if IsBusy(u) { busy := busy[u := busy[u].(expires := now + ACTIVE_LEASE)]; }
    }

    method AcceptCall(id: CallId, p: Parties) returns (reply: int)
      modifies this
      ensures (View(), reply) == Accept(old(View()), id, p)
    {
      if !Live(id) || calls[id].active { return 0; }
      calls := calls[id := CallKey(true, now + ACTIVE_TTL)];
      Expire(p.caller);
      Expire(p.callee);
      return 1;
    }

    method EndCall(id: CallId, p: Parties) returns (reply: int)
      modifies this
      ensures (View(), reply) == End(old(View()), id, p)
    {
      calls := calls - {id};
      var keys := [p.caller, p.callee];
      ghost var d := View().(busy := Release(View(), p.caller, id));
      for i := 0 to 2
        invariant calls == old(calls) - {id} && now == old(now) && parties == old(parties) && status == old(status)
        invariant busy == if i == 0 then old(busy) else if i == 1 then d.busy else Release(d, p.callee, id)
      {
        if IsBusy(keys[i]) && busy[keys[i]].call == id { busy := busy - {keys[i]}; }
      }
      return 1;
    }

    method HeartbeatCall(id: CallId, p: Parties) returns (reply: int)
      modifies this
      ensures (View(), reply) == Heartbeat(old(View()), id, p)
    {
      if !Live(id) || !calls[id].active { return 0; }
      calls := calls[id := CallKey(true, now + ACTIVE_TTL)];
      var keys := [p.caller, p.callee];
      ghost var d := View().(busy := Beat(View(), p.caller, id));
      for i := 0 to 2
        invariant calls == old(calls)[id := CallKey(true, now + ACTIVE_TTL)] && now == old(now)
        invariant parties == old(parties) && status == old(status)
        invariant busy == if i == 0 then old(busy) else if i == 1 then d.busy else Beat(d, p.callee, id)
      {
        if IsBusy(keys[i]) && busy[keys[i]].call == id {
          Expire(keys[i]);
        } else if !IsBusy(keys[i]) {
          busy := busy[keys[i] := Busy(id, now + ACTIVE_LEASE)];
        }
      }
      return 1;
    }
  }
}

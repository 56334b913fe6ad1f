/** The life of one call: it rings for 45 seconds, is active from an accept in that time on, lives as
    long as heartbeats come in time, and is over for good once ended. */
module CallLife {
  import opened Basics
  import opened Calls

  /** Nobody ends or compensates call `id` in this step. */
  predicate LeavesCall(t: Step, id: CallId) { t != DoEnd(id) && t != DoRollback(id) }

  predicate LeaveCall(ts: seq<Step>, id: CallId) { forall t | t in ts :: LeavesCall(t, id) }

  /** The callee accepts `id` at some time before `until`. */
  ghost predicate Answered(l: Leases, ts: seq<Step>, id: CallId, until: Millis)
    requires LegalRun(l, ts)
    decreases |ts|
  {
    ts != [] && ((ts[0] == DoAccept(id) && l.now < until) || Answered(Apply(l, ts[0]), ts[1..], id, until))
  }

  // ---- ringing ----

  /** What one step makes of the key of a known call. */
  lemma KeyStep(l: Leases, t: Step, id: CallId)
    requires Legal(l, t) && LeavesCall(t, id) && id in l.parties && id in l.calls
    ensures var e := Apply(l, t);
      && id in e.parties && e.parties[id] == l.parties[id] && id in e.calls
      && (l.calls[id].active ==> e.calls[id].active)
      && (!l.calls[id].active ==>
            e.calls[id] ==
              if t == DoAccept(id) && l.now < l.calls[id].expires then CallKey(true, l.now + 75_000) else l.calls[id])
  {}

  lemma {:induction false} ActiveStaysActive(l: Leases, ts: seq<Step>, id: CallId)
    requires LegalRun(l, ts) && LeaveCall(ts, id) && id in l.parties && id in l.calls && l.calls[id].active
    ensures id in Run(l, ts).calls && Run(l, ts).calls[id].active
    decreases |ts|
  {
    if ts != [] {
      hide Apply, Legal;
      assert ts[0] in ts && forall t | t in ts[1..] :: t in ts;
      KeyStep(l, ts[0], id);
      ActiveStaysActive(Apply(l, ts[0]), ts[1..], id);
    }
  }

  lemma {:induction false} RingingRun(l: Leases, ts: seq<Step>, id: CallId)
    requires LegalRun(l, ts) && LeaveCall(ts, id) && id in l.parties && id in l.calls && !l.calls[id].active
    ensures var until, f := l.calls[id].expires, Run(l, ts);
      && id in f.calls && (f.calls[id].active <==> Answered(l, ts, id, until))
      && (!Answered(l, ts, id, until) ==> f.calls[id] == l.calls[id])
    decreases |ts|
  {
    if ts != [] {
      hide Apply, Legal;
      var e := Apply(l, ts[0]);
      assert ts[0] in ts && forall t | t in ts[1..] :: t in ts;
      KeyStep(l, ts[0], id);
      if e.calls[id].active { ActiveStaysActive(e, ts[1..], id); } else { RingingRun(e, ts[1..], id); }
    }
  }

  /** Calling two users goes through exactly when neither is busy. */
  lemma CallsExactlyFreeUsers(l: Leases, id: CallId, p: Parties)
    requires p.caller != p.callee
    ensures var (e, reply) := Reserve(l, id, p);
      if (p.caller in l.busy && l.now < l.busy[p.caller].expires)
         || (p.callee in l.busy && l.now < l.busy[p.callee].expires) then
        reply == 0 && e == l
      else
        reply == 1 && e.Live(id) && e.Holds(p.caller, id) && e.Holds(p.callee, id)
        && e.calls[id] == CallKey(false, l.now + 45_000)
        && e.busy[p.caller].expires == l.now + 50_000 && e.busy[p.callee].expires == l.now + 50_000
        && (forall u | u != p.caller && u != p.callee ::
              (u in e.busy <==> u in l.busy) && (u in l.busy ==> e.busy[u] == l.busy[u]))
  {}

  /** After a reservation, and until the call is ended: it is active exactly if it has been accepted
      within its 45 seconds of ringing; if not, it lives for just those 45 seconds, whatever
      heartbeats, late accepts and other calls there are. */
  lemma RingsForItsTime(l: Leases, id: CallId, p: Parties, ts: seq<Step>)
    requires Legal(l, DoReserve(id, p)) && !l.IsBusy(p.caller) && !l.IsBusy(p.callee)
    requires LegalRun(Apply(l, DoReserve(id, p)), ts) && LeaveCall(ts, id)
    ensures var e := Apply(l, DoReserve(id, p));
      var f := Run(e, ts);
      && id in f.calls
      && (f.calls[id].active <==> Answered(e, ts, id, l.now + 45_000))
      && (!Answered(e, ts, id, l.now + 45_000) ==> (f.Live(id) <==> f.now < l.now + 45_000))
  {
    RingingRun(Apply(l, DoReserve(id, p)), ts, id);
  }

  // ---- active ----

  /** Nobody ends the call, and no stretch between heartbeats outlasts its time: `due` is when the
      present stretch is over. */
  ghost predicate Tended(l: Leases, ts: seq<Step>, id: CallId, due: Millis)
    requires LegalRun(l, ts)
    decreases |ts|
  {
    && l.now < due
    && (ts != [] ==>
          && LeavesCall(ts[0], id)
          && Tended(Apply(l, ts[0]), ts[1..], id, if ts[0] == DoHeartbeat(id) then l.now + 75_000 else due))
  }

  lemma BeatStep(l: Leases, t: Step, id: CallId)
    requires Legal(l, t) && LeavesCall(t, id) && id in l.parties && l.Live(id) && l.calls[id].active
    ensures var e := Apply(l, t);
      && id in e.calls && e.calls[id].active && id in e.parties && e.parties[id] == l.parties[id]
      && e.calls[id].expires == if t == DoHeartbeat(id) then l.now + 75_000 else l.calls[id].expires
  {}

  lemma {:induction false} TendedLives(l: Leases, ts: seq<Step>, id: CallId, due: Millis)
    requires LegalRun(l, ts) && Tended(l, ts, id, due)
    requires id in l.parties && id in l.calls && l.calls[id].active && due <= l.calls[id].expires
    ensures var f := Run(l, ts); f.Live(id) && f.calls[id].active && id in f.parties && f.parties[id] == l.parties[id]
    decreases |ts|
  {
    if ts != [] {
      hide Apply, Legal;
      BeatStep(l, ts[0], id);
      TendedLives(Apply(l, ts[0]), ts[1..], id, if ts[0] == DoHeartbeat(id) then l.now + 75_000 else due);
    }
  }

  /** An accepted call that nobody ends and that gets a heartbeat before each 75 seconds are over
      lives on through every run with safe compensations, however long; both parties are in it all
      the time, so neither can be called by anybody. */
  lemma TendedCallLivesOn(l: Leases, id: CallId, ts: seq<Step>)
    requires Inv(l) && Legal(l, DoAccept(id)) && id in l.calls && !l.calls[id].active && l.now < l.calls[id].expires
    requires LegalRun(Apply(l, DoAccept(id)), ts) && SafeRun(Apply(l, DoAccept(id)), ts)
    requires Tended(Apply(l, DoAccept(id)), ts, id, l.now + 75_000)
    ensures var f := Run(Apply(l, DoAccept(id)), ts);
      && f.Live(id) && f.calls[id].active
      && f.Holds(l.parties[id].caller, id) && f.Holds(l.parties[id].callee, id)
      && (forall k, p: Parties | p.Has(l.parties[id].caller) || p.Has(l.parties[id].callee) :: Reserve(f, k, p).1 == 0)
  {
    var e := Apply(l, DoAccept(id));
    StepKeeps(l, DoAccept(id));
    KeyStep(l, DoAccept(id), id);
    hide Apply, CallOk, UserOk, Answered;
    TendedLives(e, ts, id, l.now + 75_000);
    RunKeeps(e, ts);
    InvAt(Run(e, ts), id, 0);
    LiveCallHolds(Run(e, ts), id);
  }

  lemma LiveCallHolds(l: Leases, id: CallId)
    requires CallOk(l, id) && l.Live(id)
    ensures id in l.parties && l.Holds(l.parties[id].caller, id) && l.Holds(l.parties[id].callee, id)
  {}

  /** And without a heartbeat an active call is over 75 seconds after the last one. */
  lemma {:induction false} UntendedRunsOut(l: Leases, ts: seq<Step>, id: CallId)
    requires LegalRun(l, ts) && id in l.parties && (forall t | t in ts :: t != DoHeartbeat(id) && LeavesCall(t, id))
    requires id in l.calls && l.calls[id].active
    ensures id in Run(l, ts).calls && Run(l, ts).calls[id] == l.calls[id]
    decreases |ts|
  {
    if ts != [] {
      hide Apply, Legal;
      assert ts[0] in ts && forall t | t in ts[1..] :: t in ts;
      StillStep(l, ts[0], id);
      UntendedRunsOut(Apply(l, ts[0]), ts[1..], id);
    }
  }

  lemma StillStep(l: Leases, t: Step, id: CallId)
    requires Legal(l, t) && LeavesCall(t, id) && t != DoHeartbeat(id) && id in l.parties && id in l.calls && l.calls[id].active
    ensures var e := Apply(l, t); id in e.parties && id in e.calls && e.calls[id] == l.calls[id]
  {}

  // ---- over ----

  /** Known, and its key deleted. */
  predicate Gone(l: Leases, id: CallId) { id in l.parties && id !in l.calls }

  lemma GoneStep(l: Leases, t: Step, id: CallId)
    requires Legal(l, t) && Gone(l, id)
    ensures Gone(Apply(l, t), id)
  {}

  lemma {:induction false} GoneForGood(l: Leases, ts: seq<Step>, id: CallId)
    requires LegalRun(l, ts) && Gone(l, id)
    ensures Gone(Run(l, ts), id)
    decreases |ts|
  {
    if ts != [] {
      hide Apply, Legal, Gone;
      GoneStep(l, ts[0], id);
      GoneForGood(Apply(l, ts[0]), ts[1..], id);
    }
  }

  /** Ending a call frees its parties at once, touches no other call, and is for good. */
  lemma EndedForGood(l: Leases, id: CallId, ts: seq<Step>, u: UserId)
    requires Inv(l) && Legal(l, DoEnd(id)) && LegalRun(Apply(l, DoEnd(id)), ts)
    ensures var e := Apply(l, DoEnd(id));
      && (l.IsParty(u, id) && l.Live(id) ==> !e.IsBusy(u))
      && !e.Holds(u, id)
      && (u in l.busy && l.busy[u].call != id ==> u in e.busy && e.busy[u] == l.busy[u])
      && (forall k | k != id :: (k in e.calls <==> k in l.calls) && (k in l.calls ==> e.calls[k] == l.calls[k]))
    ensures !Run(Apply(l, DoEnd(id)), ts).Live(id)
  {
    InvAt(l, id, u);
    GoneForGood(Apply(l, DoEnd(id)), ts, id);
    hide Run, LegalRun, Inv;
  }
}

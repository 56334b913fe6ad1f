/** Choosing a partner: read a page of the queue, rank it, claim the best in two passes. */
module Matcher {
  import opened Basics
  import opened Encounter
  import opened Preferences
  import opened EncounterStore
  import I = EncounterInvariants
  import Q = EncounterQueue
  import R = EncounterRaces

  const PAGE := 100

  datatype Candidate = Candidate(id: UserId, socket: SocketId, preferences: Preferences, joinedAt: Millis)

  // ---- the page of the queue ----

  predicate Earlier(queue: map<UserId, Millis>, a: UserId, b: UserId)
    requires a in queue && b in queue
  {
    queue[a] < queue[b] || (queue[a] == queue[b] && a < b)
  }

  /** ZRANGE 0 99: the first hundred entries by join time, then identifier. */
  ghost predicate IsPage(page: seq<UserId>, queue: map<UserId, Millis>) {
    && |page| <= PAGE && (forall u | u in page :: u in queue)
    && (forall i, j | 0 <= i < j < |page| :: page[i] in queue && page[j] in queue && Earlier(queue, page[i], page[j]))
    && (|page| < PAGE ==> forall u | u in queue :: u in page)
    && (forall u, w | u in page && w in queue && w !in page :: Earlier(queue, u, w))
  }

  lemma {:induction false} EarliestExists(queue: map<UserId, Millis>, left: set<UserId>) returns (u: UserId)
    requires left != {} && left <= queue.Keys
    ensures u in left && forall w | w in left && w != u :: Earlier(queue, u, w)
    decreases |left|
  {
    var x :| x in left;
    u := x;
    if left != {x} {
      var y := EarliestExists(queue, left - {x});
      if Earlier(queue, y, x) { u := y; }
      forall w | w in left && w != u ensures Earlier(queue, u, w) {
        assert w in left - {x} || w == x;
      }
    }
  }

  lemma PageSize(page: seq<UserId>, queue: map<UserId, Millis>)
    requires IsPage(page, queue)
    ensures |page| == if |queue| < PAGE then |queue| else PAGE
  {
    var ids := set u | u in page;
    forall i, j | 0 <= i < j < |page| ensures page[i] != page[j] { assert Earlier(queue, page[i], page[j]); }
    R.CardinalityOfDistinct(page);
    SubsetSize(ids, queue.Keys);
    if |page| < PAGE { assert ids == queue.Keys; }
  }

  method FirstQueued(queue: map<UserId, Millis>) returns (page: seq<UserId>)
    ensures IsPage(page, queue) && |page| == if |queue| < 100 then |queue| else 100
  {
    page := [];
    var left := queue.Keys;
    while |page| < PAGE && left != {}
      invariant |page| <= PAGE
      invariant left <= queue.Keys && forall u :: u in queue <==> u in left || u in page
      invariant forall i | 0 <= i < |page| :: page[i] in queue && page[i] !in left
      invariant forall i, j | 0 <= i < j < |page| :: Earlier(queue, page[i], page[j])
      invariant forall i, w | 0 <= i < |page| && w in left :: Earlier(queue, page[i], w)
      decreases left
    {
      ghost var least := EarliestExists(queue, left);
      var u :| u in left && forall w | w in left && w != u :: Earlier(queue, u, w);
      page := page + [u];
      left := left - {u};
    }
    PageSize(page, queue);
  }

  /** A queued user who is someone else and still at the socket that queued. */
  predicate Reachable(s: Keyspace, me: UserId, u: UserId) {
    u != me && u in s.prefs && s.Present(u, s.prefs[u].socket)
  }

  predicate StaleEntry(s: Keyspace, me: UserId, u: UserId) {
    u != me && u in s.prefs && !s.Present(u, s.prefs[u].socket)
  }

  function AsCandidate(s: Keyspace, u: UserId): Candidate
    requires u in s.prefs && u in s.queue
  {
    Candidate(u, s.prefs[u].socket, s.prefs[u].preferences, s.queue[u])
  }

  function Listed(s: Keyspace, me: UserId, page: seq<UserId>): (r: seq<Candidate>)
    requires forall u | u in page :: u in s.queue
    ensures forall c | c in r :: c.id in page && Reachable(s, me, c.id) && c == AsCandidate(s, c.id)
    ensures forall u | u in page && Reachable(s, me, u) :: AsCandidate(s, u) in r
  {
    if page == [] then []
    else
      var last := page[|page| - 1];
      assert page == page[..|page| - 1] + [last];
      Listed(s, me, page[..|page| - 1]) + (if Reachable(s, me, last) then [AsCandidate(s, last)] else [])
  }

  function Stale(s: Keyspace, me: UserId, page: seq<UserId>): set<UserId> {
    set u | u in page && StaleEntry(s, me, u)
  }

  lemma UnqueueMore(s: Keyspace, gone: set<UserId>, u: UserId)
    ensures Unqueue(Unqueue(s, gone), {u}) == Unqueue(s, gone + {u})
  {
    assert s.queue - gone - {u} == s.queue - (gone + {u});
    assert s.prefs - gone - {u} == s.prefs - (gone + {u});
  }

  /** One more entry of the page, seen before any cleanup. */
  lemma EntryStep(s: Keyspace, me: UserId, page: seq<UserId>, i: nat)
    requires IsPage(page, s.queue) && i < |page|
    ensures var u, gone := page[i], Stale(s, me, page[..i]);
      && u in s.queue && u !in gone
      && Stale(s, me, page[..i + 1]) == (if StaleEntry(s, me, u) then gone + {u} else gone)
      && Listed(s, me, page[..i + 1]) == Listed(s, me, page[..i]) + (if Reachable(s, me, u) then [AsCandidate(s, u)] else [])
  {
    assert page[..i + 1] == page[..i] + [page[i]];
    assert page[i] !in page[..i];
    hide Reachable, StaleEntry, AsCandidate, Earlier;
  }

  /** Candidates: list the reachable entries of the page, and clean up the stale ones. */
  method Candidates(store: Store, me: UserId) returns (result: seq<Candidate>, ghost page: seq<UserId>)
    requires I.LapseInv(store.View())
    modifies store
    ensures IsPage(page, old(store.queue))
    ensures result == Listed(old(store.View()), me, page)
    ensures store.View() == Unqueue(old(store.View()), Stale(old(store.View()), me, page))
    ensures forall c | c in result :: c.id in page && c.id != me && store.Present(c.id, c.socket)
    ensures forall u | u in page && u != me && u in store.prefs ::
      store.Present(u, store.prefs[u].socket) && u in store.queue
      && Candidate(u, store.prefs[u].socket, store.prefs[u].preferences, store.queue[u]) in result
    ensures forall u | u in old(store.prefs) && (u !in page || u == me || store.Present(u, old(store.prefs)[u].socket)) ::
      u in store.prefs && store.prefs[u] == old(store.prefs)[u]
  {
    hide I.LapseInv, IsPage, Stale, Listed;
    ghost var before := store.View();
    var items := FirstQueued(store.queue);
    page := items;
    result := [];
    var joined := store.queue;
    NothingStale(before, me);
    for i := 0 to |items|
      invariant store.View() == Unqueue(before, Stale(before, me, items[..i]))
      invariant result == Listed(before, me, items[..i])
    {
      var id := items[i];
      EntryStep(before, me, items, i);
      if id != me && id in store.prefs {
        var state := store.prefs[id];
        if !store.Present(id, state.socket) {
          UnqueueMore(before, Stale(before, me, items[..i]), id);
          var _ := store.CleanupQueued(id, state);
        } else {
          result := result + [Candidate(id, state.socket, state.preferences, joined[id])];
        }
      }
    }
    assert items[..|items|] == items;
    CleanedPage(before, me, items, result);
  }

  /** After the cleanup the page holds nobody but me and the people listed. */
  lemma CleanedPage(s: Keyspace, me: UserId, page: seq<UserId>, result: seq<Candidate>)
    requires IsPage(page, s.queue) && result == Listed(s, me, page)
    ensures var e := Unqueue(s, Stale(s, me, page));
      && (forall c | c in result :: c.id in page && c.id != me && e.Present(c.id, c.socket))
      && (forall u | u in page && u != me && u in e.prefs ::
            e.Present(u, e.prefs[u].socket) && u in e.queue
            && Candidate(u, e.prefs[u].socket, e.prefs[u].preferences, e.queue[u]) in result)
      && (forall u | u in s.prefs && (u !in page || u == me || e.Present(u, s.prefs[u].socket)) ::
            u in e.prefs && e.prefs[u] == s.prefs[u])
  {}

  lemma NothingStale(s: Keyspace, me: UserId)
    ensures Stale(s, me, []) == {} && Unqueue(s, {}) == s && Listed(s, me, []) == []
  {}

  // ---- ranking ----

  /** How many interests a candidate shares with me. */
  type Score = Candidate -> nat

  function SharedWith(mine: Preferences): Score {
    (c: Candidate) => |SharedInterests(mine.interests, c.preferences.interests)|
  }

  /** The comparison given to the stable sort. */
  predicate Better(score: Score, x: Candidate, y: Candidate) {
    score(x) > score(y) || (score(x) == score(y) && x.joinedAt < y.joinedAt)
  }

  predicate QueueBefore(x: Candidate, y: Candidate) {
    x.joinedAt < y.joinedAt || (x.joinedAt == y.joinedAt && x.id < y.id)
  }

  /** Most shared interests, then earliest join, then queue order. */
  predicate Before(score: Score, x: Candidate, y: Candidate) {
    score(x) > score(y) || (score(x) == score(y) && QueueBefore(x, y))
  }

  predicate InOrder(score: Score, cs: seq<Candidate>) {
    forall i, j | 0 <= i < j < |cs| :: Before(score, cs[i], cs[j])
  }

  predicate InQueueOrder(cs: seq<Candidate>) {
    forall i, j | 0 <= i < j < |cs| :: QueueBefore(cs[i], cs[j])
  }

  lemma BeforeTransitive(score: Score, x: Candidate, y: Candidate, z: Candidate)
    requires Before(score, x, y) && Before(score, y, z)
    ensures Before(score, x, z)
  {}

  function Place(score: Score, x: Candidate, cs: seq<Candidate>): (r: seq<Candidate>)
    requires InOrder(score, cs) && forall y | y in cs :: QueueBefore(x, y)
    ensures InOrder(score, r) && forall y :: y in r <==> y == x || y in cs
  {
    if cs == [] then [x]
    else if !Better(score, cs[0], x) then
      assert forall k | 0 <= k < |cs| :: Before(score, x, cs[k]) by {
        assert cs[0] in cs;
        forall k | 0 < k < |cs| ensures Before(score, x, cs[k]) { BeforeTransitive(score, x, cs[0], cs[k]); }
      }
      [x] + cs
    else
      assert cs == [cs[0]] + cs[1..];
      var rest := Place(score, x, cs[1..]);
      assert forall k | 0 <= k < |rest| :: Before(score, cs[0], rest[k]) by {
        forall k | 0 <= k < |rest| ensures Before(score, cs[0], rest[k]) { assert rest[k] in rest; }
      }
      [cs[0]] + rest
  }

  /** A stable insertion sort, standing for sort.SliceStable. */
  function Ranked(score: Score, cs: seq<Candidate>): (r: seq<Candidate>)
    requires InQueueOrder(cs)
    ensures InOrder(score, r) && forall y :: y in r <==> y in cs
  {
    if cs == [] then []
    else
      assert cs == [cs[0]] + cs[1..];
      Place(score, cs[0], Ranked(score, cs[1..]))
  }

  lemma {:induction false} ListedInQueueOrder(s: Keyspace, me: UserId, page: seq<UserId>)
    requires IsPage(page, s.queue)
    ensures InQueueOrder(Listed(s, me, page))
  {
    ListedPrefix(s, me, page);
  }

  lemma {:induction false} ListedPrefix(s: Keyspace, me: UserId, page: seq<UserId>)
    requires forall u | u in page :: u in s.queue
    requires forall i, j | 0 <= i < j < |page| :: Earlier(s.queue, page[i], page[j])
    ensures InQueueOrder(Listed(s, me, page))
  {
    if page != [] {
      var n := |page| - 1;
      assert forall u | u in page[..n] :: u in page;
      ListedPrefix(s, me, page[..n]);
      var front := Listed(s, me, page[..n]);
      forall i | 0 <= i < |front| && Reachable(s, me, page[n]) ensures QueueBefore(front[i], AsCandidate(s, page[n])) {
        assert front[i] in front && front[i].id in page[..n];
      }
    }
  }

  // ---- the two passes ----

  /** What PostgreSQL says about the pair: EligiblePair and Profile together. */
  datatype Verdict = Eligible | Ineligible | Unavailable

  datatype Outcome = Matched(c: Candidate, m: MatchId) | NoOne | Failed

  /** Me, and what the claim script will check about me. */
  predicate Ready(s: Keyspace, me: UserId, socket: SocketId) {
    s.Present(me, socket) && me !in s.mapped && me in s.queue
  }

  predicate IsRecent(s: Keyspace, me: UserId, c: Candidate) { Pair(me, c.id) in s.recent }

  /** The order in which candidates are tried: everybody not met lately first. */
  predicate TriedBefore(s: Keyspace, me: UserId, score: Score, x: Candidate, y: Candidate) {
    (!IsRecent(s, me, x) && IsRecent(s, me, y)) || (IsRecent(s, me, x) == IsRecent(s, me, y) && Before(score, x, y))
  }

  /** Does the scan stop at this candidate? */
  predicate Stops(s: Keyspace, me: UserId, socket: SocketId, mine: Preferences, verdict: UserId -> Verdict, c: Candidate) {
    Suits(mine, c.preferences)
    && (verdict(c.id) == Unavailable || (verdict(c.id) == Eligible && Ready(s, me, socket)))
  }

  /** Claim of a listed candidate: it goes through exactly when I am ready. */
  lemma ClaimSucceeds(before: Keyspace, s: Keyspace, me: UserId, socket: SocketId, page: seq<UserId>, c: Candidate,
                      m: MatchId, intent: string, shared: seq<string>, now: Millis)
    requires I.LapseInv(before) && IsPage(page, before.queue) && c in Listed(before, me, page)
    requires s == Unqueue(before, Stale(before, me, page))
    ensures var claim := Claim(s, me, c.id, socket, c.socket, m, intent, shared, now, IsRecent(s, me, c));
      if Ready(s, me, socket) then claim.1 == 1 else claim == (s, 0)
    ensures c.id != me
  {
    I.InvAt(before, c.id, 0, (0, 0));
    assert c.id !in Stale(before, me, page);
  }

  /** Everything that one matching attempt has fixed before its first claim. */
  datatype Attempt = Attempt(me: UserId, socket: SocketId, mine: Preferences, verdict: UserId -> Verdict, now: Millis)

  ghost predicate StopsAt(s: Keyspace, x: Attempt, c: Candidate) {
    Stops(s, x.me, x.socket, x.mine, x.verdict, c)
  }

  /** `c` comes first among the candidates at which the scan may stop. */
  ghost predicate FirstStop(s: Keyspace, x: Attempt, cs: seq<Candidate>, c: Candidate) {
    && c in cs && Suits(x.mine, c.preferences)
    && forall d | d in cs && d != c && StopsAt(s, x, d) :: TriedBefore(s, x.me, SharedWith(x.mine), c, d)
  }

  /** The claim a matched attempt has made, on snapshot `s`. */
  ghost predicate ClaimMade(s: Keyspace, e: Keyspace, x: Attempt, c: Candidate, m: MatchId) {
    (e, 1) == Encounter.Claim(s, x.me, c.id, x.socket, c.socket, m, ResolvedIntent(x.mine.intent, c.preferences.intent),
                              SharedInterests(x.mine.interests, c.preferences.interests), x.now, IsRecent(s, x.me, c))
  }

  ghost predicate Correct(s: Keyspace, e: Keyspace, x: Attempt, cs: seq<Candidate>, o: Outcome) {
    match o
    case Matched(c, m) => FirstStop(s, x, cs, c) && x.verdict(c.id) == Eligible && Ready(s, x.me, x.socket) && ClaimMade(s, e, x, c, m)
    case NoOne => e == s && forall d | d in cs :: !StopsAt(s, x, d)
    case Failed => e == s && exists c :: FirstStop(s, x, cs, c) && x.verdict(c.id) == Unavailable
  }

  // ---- the same in terms of the people ----

  predicate MetLately(s: Keyspace, me: UserId, u: UserId) { (me, u) in s.recent || (u, me) in s.recent }

  /** Could be my partner: we suit each other, and the database has nothing against it. */
  predicate Fits(x: Attempt, c: Candidate) { Suits(x.mine, c.preferences) && x.verdict(c.id) == Eligible }

  function InCommon(x: Attempt, c: Candidate): nat { |Items(x.mine.interests) * Items(c.preferences.interests)| }

  /** New faces first, then the most interests in common, then the longest wait. */
  predicate Preferred(s: Keyspace, x: Attempt, c: Candidate, d: Candidate) {
    || (!MetLately(s, x.me, c.id) && MetLately(s, x.me, d.id))
    || ((MetLately(s, x.me, c.id) <==> MetLately(s, x.me, d.id))
        && (InCommon(x, c) > InCommon(x, d)
            || (InCommon(x, c) == InCommon(x, d) && (c.joinedAt < d.joinedAt || (c.joinedAt == d.joinedAt && c.id < d.id)))))
  }

  /** We two are in this match, with the intent and the interests we have in common. */
  ghost predicate InMatchTogether(e: Keyspace, x: Attempt, c: Candidate, m: MatchId) {
    && m in e.matches && (e.matches[m].a, e.matches[m].b) == (x.me, c.id)
    && x.me in e.mapped && e.mapped[x.me] == m && c.id in e.mapped && e.mapped[c.id] == m
    && e.matches[m].startedAt == x.now && e.matches[m].expiresAt == x.now + 60_000
    && (var asked := {x.mine.intent, c.preferences.intent} - {"surprise_me"};
        {e.matches[m].intent} == if asked == {} then {"surprise_me"} else asked)
    && Sorted(e.matches[m].shared)
    && forall i :: i in e.matches[m].shared <==> i in x.mine.interests && i in c.preferences.interests
  }

  /** What an attempt comes to among the candidates `cs`. */
  ghost predicate Chosen(s: Keyspace, e: Keyspace, x: Attempt, cs: seq<Candidate>, o: Outcome) {
    match o
    case Matched(c, m) =>
      && c in cs && Fits(x, c) && (forall d | d in cs && d != c && Fits(x, d) :: Preferred(s, x, c, d))
      && InMatchTogether(e, x, c, m)
    case NoOne =>
      && e == s && (Q.Waits(s, x.me, x.socket) ==> forall d | d in cs :: !Fits(x, d))
      && forall d | d in cs && Suits(x.mine, d.preferences) :: x.verdict(d.id) != Unavailable
    case Failed => e == s && exists d :: d in cs && Suits(x.mine, d.preferences) && x.verdict(d.id) == Unavailable
  }

  /** Preferences are queued in canonical form, and recent pairs low identifier first. */
  ghost predicate Normal(s: Keyspace) {
    Q.RecentOk(s) && forall u | u in s.prefs :: Distinct(s.prefs[u].preferences.interests)
  }

  lemma RecentEitherWay(s: Keyspace, me: UserId, c: Candidate)
    requires Q.RecentOk(s)
    ensures IsRecent(s, me, c) <==> MetLately(s, me, c.id)
  {}

  lemma TriedFirstIsPreferred(s: Keyspace, x: Attempt, c: Candidate, d: Candidate)
    requires Q.RecentOk(s) && Distinct(c.preferences.interests) && Distinct(d.preferences.interests)
    ensures TriedBefore(s, x.me, SharedWith(x.mine), c, d) <==> Preferred(s, x, c, d)
  {
    RecentEitherWay(s, x.me, c);
    RecentEitherWay(s, x.me, d);
    SharedInterestsCount(x.mine.interests, c.preferences.interests);
    SharedInterestsCount(x.mine.interests, d.preferences.interests);
    hide Q.RecentOk, IsRecent, MetLately, Distinct, SharedInterests, Items;
  }

  lemma ClaimPutsTogether(s: Keyspace, e: Keyspace, x: Attempt, c: Candidate, m: MatchId)
    requires ClaimMade(s, e, x, c, m) && Suits(x.mine, c.preferences) && x.me != c.id
    ensures InMatchTogether(e, x, c, m)
  {
    IntentOfPair(x.mine, c.preferences);
    hide Sort, Filter, ResolvedIntent, Suits;
  }

  lemma ChoiceInPlainTerms(s: Keyspace, e: Keyspace, x: Attempt, cs: seq<Candidate>, o: Outcome)
    requires Correct(s, e, x, cs, o) && Q.RecentOk(s)
    requires forall c | c in cs :: Distinct(c.preferences.interests) && c.id != x.me
    ensures Chosen(s, e, x, cs, o)
  {
    match o
    case Matched(c, m) =>
      ClaimPutsTogether(s, e, x, c, m);
      hide Suits, ClaimMade, InMatchTogether, Preferred, TriedBefore, Q.RecentOk, Distinct;
      forall d | d in cs && d != c && Fits(x, d) ensures Preferred(s, x, c, d) {
        assert StopsAt(s, x, d);
        TriedFirstIsPreferred(s, x, c, d);
      }
    case NoOne =>
      hide Suits;
      forall d | d in cs ensures !StopsAt(s, x, d) {}
    case Failed => hide Suits, TriedBefore;
  }

  /** Position `k` is where this pass may stop first. */
  lemma FirstOfPass(s: Keyspace, x: Attempt, ranked: seq<Candidate>, lately: bool, k: nat)
    requires InOrder(SharedWith(x.mine), ranked) && k < |ranked|
    requires Suits(x.mine, ranked[k].preferences) && IsRecent(s, x.me, ranked[k]) == lately
    requires lately ==> forall c | c in ranked && !IsRecent(s, x.me, c) :: !StopsAt(s, x, c)
    requires forall i | 0 <= i < k && IsRecent(s, x.me, ranked[i]) == lately :: !StopsAt(s, x, ranked[i])
    ensures FirstStop(s, x, ranked, ranked[k])
    ensures ranked[k] !in ranked[..k]
  {
    forall d | d in ranked && d != ranked[k] && StopsAt(s, x, d)
      ensures TriedBefore(s, x.me, SharedWith(x.mine), ranked[k], d)
    {
      var i :| 0 <= i < |ranked| && ranked[i] == d;
    }
  }

  // ---- the attempts made ----

  /** A candidate that this pass puts to claimCandidate when it gets there. */
  ghost predicate Tryable(s: Keyspace, x: Attempt, lately: bool, c: Candidate) {
    Suits(x.mine, c.preferences) && IsRecent(s, x.me, c) == lately
  }

  ghost predicate InTriedOrder(s: Keyspace, x: Attempt, attempts: seq<Candidate>) {
    forall i, j | 0 <= i < j < |attempts| :: TriedBefore(s, x.me, SharedWith(x.mine), attempts[i], attempts[j])
  }

  /** A pass has tried exactly the tryable ones among the first `k`, in order. */
  ghost predicate PassTried(s: Keyspace, x: Attempt, ranked: seq<Candidate>, lately: bool, k: nat, attempts: seq<Candidate>)
    requires k <= |ranked|
  {
    && InTriedOrder(s, x, attempts)
    && forall c :: c in attempts <==> c in ranked[..k] && Tryable(s, x, lately, c)
  }

  lemma TryNext(s: Keyspace, x: Attempt, ranked: seq<Candidate>, lately: bool, k: nat, attempts: seq<Candidate>)
    requires InOrder(SharedWith(x.mine), ranked) && k < |ranked| && PassTried(s, x, ranked, lately, k, attempts)
    ensures var c := ranked[k];
      PassTried(s, x, ranked, lately, k + 1, if Tryable(s, x, lately, c) then attempts + [c] else attempts)
  {
    var c := ranked[k];
    assert ranked[..k + 1] == ranked[..k] + [c];
    hide Suits, IsRecent;
    if Tryable(s, x, lately, c) {
      var more := attempts + [c];
      forall i, j | 0 <= i < j < |more| ensures TriedBefore(s, x.me, SharedWith(x.mine), more[i], more[j]) {
        if j == |attempts| {
          assert more[i] in attempts;
          var n :| 0 <= n < k && ranked[n] == more[i];
        }
      }
    }
  }

  /** Both passes together. Attempts come in the order of TriedBefore and so never twice; no
      compatible candidate is passed over; every attempt but a final one fails to stop the scan,
      and nothing is tried after the one that does. */
  ghost predicate Tried(s: Keyspace, x: Attempt, cs: seq<Candidate>, o: Outcome, attempts: seq<Candidate>) {
    && InTriedOrder(s, x, attempts)
    && (forall i, j | 0 <= i < j < |attempts| :: attempts[i] != attempts[j])
    && (forall c | c in attempts :: c in cs && Suits(x.mine, c.preferences))
    && (forall c | c in cs && Suits(x.mine, c.preferences) && c !in attempts ::
          !o.NoOne? && forall d | d in attempts :: TriedBefore(s, x.me, SharedWith(x.mine), d, c))
    && (forall i | 0 <= i < |attempts| - (if o.NoOne? then 0 else 1) :: !StopsAt(s, x, attempts[i]))
    && (o.Matched? ==> attempts != [] && attempts[|attempts| - 1] == o.c)
    && (o.Failed? ==> attempts != [] && x.verdict(attempts[|attempts| - 1].id) == Unavailable)
  }

  /** What one pass reports: how far it came, and what it tried on the way. */
  ghost predicate PassReport(s: Keyspace, x: Attempt, ranked: seq<Candidate>, lately: bool, o: Outcome, stop: nat,
                             attempts: seq<Candidate>)
  {
    && stop <= |ranked| && (o.NoOne? <==> stop == |ranked|)
    && PassTried(s, x, ranked, lately, if o.NoOne? then stop else stop + 1, attempts)
    && (forall i | 0 <= i < stop && IsRecent(s, x.me, ranked[i]) == lately :: !StopsAt(s, x, ranked[i]))
    && (!o.NoOne? ==> attempts != [] && attempts[|attempts| - 1] == ranked[stop])
    && (o.Matched? ==> o.c == ranked[stop])
    && (o.Failed? ==> x.verdict(ranked[stop].id) == Unavailable)
  }

  lemma TriedBeforeIsStrict(s: Keyspace, x: Attempt, attempts: seq<Candidate>)
    requires InTriedOrder(s, x, attempts)
    ensures forall i, j | 0 <= i < j < |attempts| :: attempts[i] != attempts[j]
  {}

  /** In a pass, only the last attempt may stop it. */
  lemma EarlierAttemptsFail(s: Keyspace, x: Attempt, ranked: seq<Candidate>, lately: bool, o: Outcome, stop: nat, attempts: seq<Candidate>)
    requires PassReport(s, x, ranked, lately, o, stop, attempts)
    ensures forall i | 0 <= i < |attempts| - (if o.NoOne? then 0 else 1) :: !StopsAt(s, x, attempts[i])
  {
    hide StopsAt, Suits, IsRecent, TriedBefore;
    TriedBeforeIsStrict(s, x, attempts);
    forall i | 0 <= i < |attempts| - (if o.NoOne? then 0 else 1) ensures !StopsAt(s, x, attempts[i]) {
      assert attempts[i] in attempts;
      var n :| 0 <= n < (if o.NoOne? then stop else stop + 1) && ranked[n] == attempts[i];
      assert n < stop;
    }
  }

  /** A candidate left untried by a pass that stopped comes after everything it tried. */
  lemma UntriedComesLater(s: Keyspace, x: Attempt, ranked: seq<Candidate>, lately: bool, o: Outcome, stop: nat, attempts: seq<Candidate>,
                          c: Candidate, d: Candidate)
    requires InOrder(SharedWith(x.mine), ranked) && PassReport(s, x, ranked, lately, o, stop, attempts)
    requires c in ranked && Tryable(s, x, lately, c) && c !in attempts && d in attempts
    ensures !o.NoOne? && TriedBefore(s, x.me, SharedWith(x.mine), d, c)
  {
    var k := if o.NoOne? then stop else stop + 1;
    assert forall n | 0 <= n < k :: ranked[n] in ranked[..k];
    var i :| 0 <= i < |ranked| && ranked[i] == c;
    var j :| 0 <= j < k && ranked[j] == d;
  }

  lemma JoinedInOrder(s: Keyspace, x: Attempt, a0: seq<Candidate>, a1: seq<Candidate>)
    requires InTriedOrder(s, x, a0) && InTriedOrder(s, x, a1)
    requires forall c | c in a0 :: !IsRecent(s, x.me, c)
    requires forall c | c in a1 :: IsRecent(s, x.me, c)
    ensures InTriedOrder(s, x, a0 + a1)
  {
    hide IsRecent, Before;
    var all := a0 + a1;
    forall i, j | 0 <= i < j < |all| ensures TriedBefore(s, x.me, SharedWith(x.mine), all[i], all[j]) {
      if j < |a0| {
        assert all[i] == a0[i] && all[j] == a0[j];
      } else if |a0| <= i {
        assert all[i] == a1[i - |a0|] && all[j] == a1[j - |a0|];
      } else {
        assert all[i] in a0 && all[j] in a1;
      }
    }
  }

  lemma PassMembers(s: Keyspace, x: Attempt, ranked: seq<Candidate>, lately: bool, o: Outcome, stop: nat, attempts: seq<Candidate>)
    requires PassReport(s, x, ranked, lately, o, stop, attempts)
    ensures forall c | c in attempts :: c in ranked && Tryable(s, x, lately, c)
    ensures InTriedOrder(s, x, attempts)
  {
    hide StopsAt, Tryable, InTriedOrder;
  }

  /** The two passes join up: the second runs only when the first stopped nowhere. */
  lemma PassesJoin(s: Keyspace, x: Attempt, ranked: seq<Candidate>, o0: Outcome, k0: nat, a0: seq<Candidate>,
                   o: Outcome, k1: nat, a1: seq<Candidate>)
    requires InOrder(SharedWith(x.mine), ranked) && PassReport(s, x, ranked, false, o0, k0, a0)
    requires if o0.NoOne? then PassReport(s, x, ranked, true, o, k1, a1) else o == o0 && a1 == []
    ensures Tried(s, x, ranked, o, a0 + a1)
  {
    hide PassTried, InTriedOrder, Before, StopsAt, InOrder, IsRecent, Suits, TriedBefore;
    EarlierAttemptsFail(s, x, ranked, false, o0, k0, a0);
    PassMembers(s, x, ranked, false, o0, k0, a0);
    if o0.NoOne? {
      EarlierAttemptsFail(s, x, ranked, true, o, k1, a1);
      PassMembers(s, x, ranked, true, o, k1, a1);
    } else {
      EmptyPass(s, x, ranked, true);
    }
    JoinedInOrder(s, x, a0, a1);
    TriedBeforeIsStrict(s, x, a0 + a1);
    UntriedAfterBoth(s, x, ranked, o0, k0, a0, o, k1, a1);
  }

  lemma UntriedAfterBoth(s: Keyspace, x: Attempt, ranked: seq<Candidate>, o0: Outcome, k0: nat, a0: seq<Candidate>,
                         o: Outcome, k1: nat, a1: seq<Candidate>)
    requires InOrder(SharedWith(x.mine), ranked) && PassReport(s, x, ranked, false, o0, k0, a0)
    requires if o0.NoOne? then PassReport(s, x, ranked, true, o, k1, a1) else o == o0 && a1 == []
    ensures forall c | c in ranked && Suits(x.mine, c.preferences) && c !in a0 + a1 ::
      !o.NoOne? && forall d | d in a0 + a1 :: TriedBefore(s, x.me, SharedWith(x.mine), d, c)
  {
    PassMembers(s, x, ranked, false, o0, k0, a0);
    if o0.NoOne? { PassMembers(s, x, ranked, true, o, k1, a1); }
    forall c, d | c in ranked && Suits(x.mine, c.preferences) && c !in a0 + a1
      ensures !o.NoOne? && (d in a0 + a1 ==> TriedBefore(s, x.me, SharedWith(x.mine), d, c))
    {
      UntriedAfter(s, x, ranked, o0, k0, a0, o, k1, a1, c, d);
    }
    hide PassReport, InOrder, TriedBefore, Suits;
  }

  lemma UntriedAfter(s: Keyspace, x: Attempt, ranked: seq<Candidate>, o0: Outcome, k0: nat, a0: seq<Candidate>,
                     o: Outcome, k1: nat, a1: seq<Candidate>, c: Candidate, d: Candidate)
    requires InOrder(SharedWith(x.mine), ranked) && PassReport(s, x, ranked, false, o0, k0, a0)
    requires if o0.NoOne? then PassReport(s, x, ranked, true, o, k1, a1) else o == o0 && a1 == []
    requires c in ranked && Suits(x.mine, c.preferences) && c !in a0 && c !in a1
    ensures !o.NoOne?
    ensures d in a0 || d in a1 ==> TriedBefore(s, x.me, SharedWith(x.mine), d, c)
  {
    hide PassTried, InOrder, Before, StopsAt, Suits, IsRecent;
    PassMembers(s, x, ranked, false, o0, k0, a0);
    if o0.NoOne? { PassMembers(s, x, ranked, true, o, k1, a1); }
    if IsRecent(s, x.me, c) {
      if o0.NoOne? { NothingSkipped(s, x, ranked, true, o, k1, a1, c); }
      if d in a1 { UntriedComesLater(s, x, ranked, true, o, k1, a1, c, d); }
    } else {
      NothingSkipped(s, x, ranked, false, o0, k0, a0, c);
      if d in a0 { UntriedComesLater(s, x, ranked, false, o0, k0, a0, c, d); }
    }
  }

  /** A pass that stops nowhere has tried everything of its kind. */
  lemma NothingSkipped(s: Keyspace, x: Attempt, ranked: seq<Candidate>, lately: bool, o: Outcome, stop: nat, attempts: seq<Candidate>,
                       c: Candidate)
    requires PassReport(s, x, ranked, lately, o, stop, attempts)
    requires c in ranked && Tryable(s, x, lately, c) && c !in attempts
    ensures !o.NoOne?
  {
    hide Tryable, InTriedOrder, StopsAt;
    assert ranked[..|ranked|] == ranked;
  }

  lemma TriedForMembers(s: Keyspace, x: Attempt, cs: seq<Candidate>, ds: seq<Candidate>, o: Outcome, attempts: seq<Candidate>)
    requires Tried(s, x, cs, o, attempts) && forall c :: c in cs <==> c in ds
    ensures Tried(s, x, ds, o, attempts)
  {
    hide InTriedOrder, TriedBefore, Suits, StopsAt;
  }

  /** One pass over the ranked candidates: those met lately, or those not. */
  method TryPass(store: Store, x: Attempt, ranked: seq<Candidate>, lately: bool, freshId: nat -> MatchId,
                 ghost before: Keyspace, ghost page: seq<UserId>)
    returns (o: Outcome, ghost stop: nat, ghost attempts: seq<Candidate>)
    requires I.LapseInv(before) && IsPage(page, before.queue)
    requires store.View() == Unqueue(before, Stale(before, x.me, page))
    requires InOrder(SharedWith(x.mine), ranked) && forall c :: c in ranked <==> c in Listed(before, x.me, page)
    requires lately ==> forall c | c in ranked && !IsRecent(store.View(), x.me, c) :: !StopsAt(store.View(), x, c)
    modifies store
    ensures o.NoOne? ==> store.View() == old(store.View())
    ensures o.NoOne? ==> forall c | c in ranked && IsRecent(old(store.View()), x.me, c) == lately :: !StopsAt(old(store.View()), x, c)
    ensures !o.NoOne? ==> Correct(old(store.View()), store.View(), x, ranked, o)
    ensures PassReport(old(store.View()), x, ranked, lately, o, stop, attempts)
    ensures forall i, j | 0 <= i < j < |attempts| :: attempts[i] != attempts[j]
  {
    hide FirstStop, Claim, SharedInterests, InOrder, Listed, Stale, Unqueue, Compatible, Suits, IsPage, I.LapseInv, Ready, ResolvedIntent,
         InTriedOrder, TriedBefore;
    ghost var s := store.View();
    var claims := 0;
    attempts, stop := [], 0;
    EmptyPass(s, x, ranked, lately);
    for k := 0 to |ranked|
      invariant store.View() == s && stop == k
      invariant forall i | 0 <= i < k && IsRecent(s, x.me, ranked[i]) == lately :: !StopsAt(s, x, ranked[i])
      invariant PassTried(s, x, ranked, lately, k, attempts)
    {
      var c := ranked[k];
      TryNext(s, x, ranked, lately, k, attempts);
      CompatibleExactlyWhenSuited(x.mine, c.preferences);
      var recent := Pair(x.me, c.id) in store.recent;
      if !Compatible(x.mine, c.preferences) || recent != lately { stop := k + 1; continue; }
      FirstOfPass(s, x, ranked, lately, k);
      attempts := attempts + [c];
      TriedBeforeIsStrict(s, x, attempts);
      if x.verdict(c.id) == Unavailable { return Failed, stop, attempts; }
      if x.verdict(c.id) == Ineligible { stop := k + 1; continue; }
      var m := freshId(claims);
      var intent := ResolvedIntent(x.mine.intent, c.preferences.intent);
      var shared := SharedInterests(x.mine.interests, c.preferences.interests);
      ClaimSucceeds(before, s, x.me, x.socket, page, c, m, intent, shared, x.now);
      var claimed := store.Claim(x.me, c.id, x.socket, c.socket, m, intent, shared, x.now, recent);
      if claimed == 1 { return Matched(c, m), stop, attempts; }
      claims := claims + 1;
      stop := k + 1;
    }
    TriedBeforeIsStrict(s, x, attempts);
    return NoOne, stop, attempts;
  }

  lemma EmptyPass(s: Keyspace, x: Attempt, ranked: seq<Candidate>, lately: bool)
    ensures PassTried(s, x, ranked, lately, 0, [])
  {}

  /** Matcher optimality on a stable snapshot: the claimed candidate is the first, by (not met
      lately, most shared interests, earliest join, queue order), among those compatible and
      eligible; a failed lookup aborts only if nobody claimable comes first; nobody is claimed
      only when nobody is claimable; and the attempts are made in that order, each candidate at
      most once, none passed over, none after the scan has stopped. */
  method TryMatch(store: Store, x: Attempt, freshId: nat -> MatchId)
    returns (o: Outcome, ghost page: seq<UserId>, ghost attempts: seq<Candidate>)
    requires I.LapseInv(store.View())
    modifies store
    ensures IsPage(page, old(store.queue))
    ensures var before := old(store.View());
      var snapshot := Unqueue(before, Stale(before, x.me, page));
      && Correct(snapshot, store.View(), x, Listed(before, x.me, page), o)
      && Tried(snapshot, x, Listed(before, x.me, page), o, attempts)
      && (Normal(before) ==> Chosen(snapshot, store.View(), x, Listed(before, x.me, page), o))
  {
    hide Chosen, Normal, Tried, PassReport, Listed, Stale, Unqueue, IsPage, I.LapseInv, StopsAt, IsRecent;
    ghost var before := store.View();
    var candidates, pg := Candidates(store, x.me);
    page := pg;
    ghost var s := store.View();
    ListedInQueueOrder(before, x.me, page);
    var ranked := Ranked(SharedWith(x.mine), candidates);
    ghost var k0, k1, a0, a1;
    ghost var o0;
    o, k0, a0 := TryPass(store, x, ranked, false, freshId, before, page);
    o0 := o;
    k1, a1 := 0, [];
    if o.NoOne? { o, k1, a1 := TryPass(store, x, ranked, true, freshId, before, page); }
    attempts := a0 + a1;
    PassesJoin(s, x, ranked, o0, k0, a0, o, k1, a1);
    TriedForMembers(s, x, ranked, candidates, o, attempts);
    CorrectForMembers(s, store.View(), x, ranked, candidates, o);
    if Normal(before) {
      ListedAreNormal(before, x.me, page);
      ChoiceInPlainTerms(s, store.View(), x, candidates, o);
    }
  }

  lemma ListedAreNormal(before: Keyspace, me: UserId, page: seq<UserId>)
    requires Normal(before) && IsPage(page, before.queue)
    ensures Q.RecentOk(Unqueue(before, Stale(before, me, page)))
    ensures forall c | c in Listed(before, me, page) :: Distinct(c.preferences.interests) && c.id != me
  {
    hide Distinct;
  }

  lemma CorrectForMembers(s: Keyspace, e: Keyspace, x: Attempt, cs: seq<Candidate>, ds: seq<Candidate>, o: Outcome)
    requires Correct(s, e, x, cs, o) && forall c :: c in cs <==> c in ds
    ensures Correct(s, e, x, ds, o)
  {
    match o
    case Matched(c, _) => assert FirstStop(s, x, ds, c);
    case NoOne =>
    case Failed =>
      var c :| FirstStop(s, x, cs, c) && x.verdict(c.id) == Unavailable;
      assert FirstStop(s, x, ds, c);
  }
}

/** The messages screen: one timeline fed by reloads, older pages and sends, and a retry token that
    makes an unchanged draft one message however often it is sent. */
module Conversation {
  import opened Basics
  import opened Messaging
  import opened Timeline
  import Preferences

  // ---- the timeline ----

  /** The last item of each identifier wins. */
  function Latest(s: seq<Item>): Thread {
    if s == [] then map[]
    else Latest(s[..|s| - 1])[s[|s| - 1].id := s[|s| - 1].message]
  }

  lemma {:induction false} LatestOfThread(s: seq<Item>, t: Thread)
    requires forall x | x in s :: In(t, x)
    ensures forall x :: In(Latest(s), x) <==> x in s
  {
    if s != [] {
      var front, last := s[..|s| - 1], s[|s| - 1];
      LatestOfThread(front, t);
      assert s == front + [last];
      forall x ensures In(Latest(s), x) <==> x in s {
        assert In(t, last);
        assert x in front ==> In(t, x);
      }
    }
  }

  /** What is on screen are messages of the thread, in order and without repetition. */
  ghost predicate Shows(items: seq<Item>, t: Thread) {
    Ascending(items) && forall x | x in items :: In(t, x)
  }

  /** Nothing between the first and the last item is missing. */
  ghost predicate Unbroken(items: seq<Item>, t: Thread) {
    forall k | k in t && items != [] && items[0].id <= k <= items[|items| - 1].id :: Item(k, t[k]) in items
  }

  lemma ShowsLater(items: seq<Item>, t: Thread, u: Thread)
    requires Shows(items, t) && Grown(t, u)
    ensures Shows(items, u) && (Unbroken(items, t) ==> Unbroken(items, u))
  {
    if items != [] { assert In(t, items[|items| - 1]); }
  }

  /** The merge of a reload or of a sent message: the items of both, in order. */
  lemma MergeShows(items: seq<Item>, extra: seq<Item>, t: Thread, merged: seq<Item>)
    requires Shows(items, t) && (forall x | x in extra :: In(t, x)) && Lists(merged, Latest(items + extra))
    ensures Shows(merged, t) && forall x :: x in merged <==> x in items || x in extra
  {
    LatestOfThread(items + extra, t);
  }

  function Newer(t: Thread, i: MessageId): set<MessageId> { set k | k in t && i < k }

  function NotOlder(t: Thread, i: MessageId): set<MessageId> { set k | k in t && i <= k }

  lemma Ends(s: seq<Item>, x: Item)
    requires Ascending(s) && x in s
    ensures s[0].id <= x.id <= s[|s| - 1].id
  {
    var i :| 0 <= i < |s| && s[i] == x;
  }

  /** The newest page holds a message exactly when at most 60 messages are not older than it. */
  lemma NewestPageHolds(t: Thread, page: seq<Item>, k: MessageId)
    requires IsPage(t, 0, page) && k in t
    ensures Item(k, t[k]) in page <==> |NotOlder(t, k)| <= PAGE
  {
    IdsCount(page);
    if Item(k, t[k]) in page {
      forall i | i in NotOlder(t, k) ensures i in Ids(page) {
        assert Item(i, t[i]) in page;
        assert Item(i, t[i]).id == i;
      }
      SubsetSize(NotOlder(t, k), Ids(page));
    } else {
      forall i | i in Ids(page) + {k} ensures i in NotOlder(t, k) {}
      SubsetSize(Ids(page) + {k}, NotOlder(t, k));
    }
  }

  /** Messages younger than the first item that are not on screen. */
  function Missing(items: seq<Item>, t: Thread): set<MessageId>
    requires items != []
  {
    set k | k in t && items[0].id < k && Item(k, t[k]) !in items
  }

  /** A merged timeline is unbroken exactly when the page brought everything that was missing. */
  lemma UnbrokenIfNothingIsLeft(items: seq<Item>, t: Thread, page: seq<Item>, merged: seq<Item>)
    requires items != [] && Shows(items, t) && IsPage(t, 0, page) && Shows(merged, t)
    requires forall x :: x in merged <==> x in items || x in page
    ensures Unbroken(merged, t) <==> forall k | k in Missing(items, t) :: Item(k, t[k]) in page
  {
    var first, lowest := items[0], merged[0];
    assert first in items && first in merged && lowest in merged;
    Ends(merged, first);
    if Unbroken(merged, t) {
      forall k | k in Missing(items, t) ensures Item(k, t[k]) in page {
        if Item(k, t[k]) !in page {
          assert page[0] in page && page[0] in merged;
          Ends(merged, page[0]);
        }
      }
    } else {
      var k :| k in t && lowest.id <= k <= merged[|merged| - 1].id && Item(k, t[k]) !in merged;
      if lowest in items { Ends(items, lowest); }
      assert lowest == first;
      assert In(t, first) && k != first.id;
    }
  }

  /** For any screen: after a reload nothing is missing between its ends exactly when every message
      that was missing is among the newest 60. */
  lemma ReloadGap(items: seq<Item>, t: Thread, page: seq<Item>, merged: seq<Item>)
    requires items != [] && Shows(items, t) && IsPage(t, 0, page)
    requires Lists(merged, Latest(items + Reversed(page)))
    ensures Unbroken(merged, t) <==> forall k | k in Missing(items, t) :: |NotOlder(t, k)| <= PAGE
  {
    MergeShows(items, Reversed(page), t, merged);
    UnbrokenIfNothingIsLeft(items, t, page, merged);
    forall k | k in Missing(items, t) ensures Item(k, t[k]) in page <==> |NotOlder(t, k)| <= PAGE { NewestPageHolds(t, page, k); }
    hide Latest, IsPage, Unbroken, Lists;
  }

  lemma {:induction false} Oldest(ids: set<MessageId>) returns (least: MessageId)
    requires ids != {}
    ensures least in ids && forall i | i in ids :: least <= i
    decreases |ids|
  {
    var x :| x in ids;
    least := x;
    if ids != {x} {
      var other := Oldest(ids - {x});
      least := if other < x then other else x;
      forall i | i in ids ensures least <= i { assert i == x || i in ids - {x}; }
    }
  }

  /** Missing messages that are all younger than `last` are all recent exactly when the oldest of
      them is; if they are everything younger than `last`, this counts the messages since then. */
  lemma OldestMissingDecides(t: Thread, last: MessageId, missing: set<MessageId>)
    requires missing <= Newer(t, last)
    ensures |Newer(t, last)| <= PAGE ==> forall k | k in missing :: |NotOlder(t, k)| <= PAGE
    ensures missing == Newer(t, last) ==>
      ((forall k | k in missing :: |NotOlder(t, k)| <= PAGE) <==> |Newer(t, last)| <= PAGE)
  {
    forall k | k in missing ensures |NotOlder(t, k)| <= |Newer(t, last)| { SubsetSize(NotOlder(t, k), Newer(t, last)); }
    if missing == Newer(t, last) && missing != {} {
      var k := Oldest(missing);
      assert NotOlder(t, k) == Newer(t, last);
    }
  }

  /** An unbroken screen stays unbroken exactly when at most 60 messages have arrived since; with
      more, the ones in between are missing, and nothing fetches them later. */
  lemma ReloadOfUnbroken(items: seq<Item>, t: Thread, page: seq<Item>, merged: seq<Item>)
    requires items != [] && Shows(items, t) && Unbroken(items, t) && IsPage(t, 0, page)
    requires Lists(merged, Latest(items + Reversed(page)))
    ensures Unbroken(merged, t) <==> |Newer(t, items[|items| - 1].id)| <= PAGE
  {
    var last := items[|items| - 1].id;
    forall x | x in items ensures x.id <= last { Ends(items, x); }
    Ends(items, items[0]);
    assert Missing(items, t) == Newer(t, last);
    OldestMissingDecides(t, last, Missing(items, t));
    ReloadGap(items, t, page, merged);
    hide Latest, IsPage, Lists;
  }

  /** Sends answered since the last reload leave an unbroken part `base` and the sent messages behind
      it. The next reload closes the gaps exactly when everything of the peer in between is among
      the newest 60; at most 60 messages since `base` are enough. */
  lemma ReloadAfterSends(base: seq<Item>, sent: seq<Item>, t: Thread, page: seq<Item>, merged: seq<Item>)
    requires base != [] && Shows(base + sent, t) && Unbroken(base, t) && IsPage(t, 0, page)
    requires Lists(merged, Latest(base + sent + Reversed(page)))
    ensures Unbroken(merged, t) <==>
      forall k | k in Newer(t, base[|base| - 1].id) && Item(k, t[k]) !in sent :: |NotOlder(t, k)| <= PAGE
    ensures |Newer(t, base[|base| - 1].id)| <= PAGE ==> Unbroken(merged, t)
  {
    var items, last := base + sent, base[|base| - 1].id;
    assert items[|base| - 1].id == last && items[0] == base[0];
    assert Ascending(base) by { assert base == items[..|base|]; }
    forall k ensures k in Missing(items, t) <==> k in Newer(t, last) && Item(k, t[k]) !in sent {
      if k in t && Item(k, t[k]) in base { Ends(base, Item(k, t[k])); }
    }
    OldestMissingDecides(t, last, Missing(items, t));
    ReloadGap(items, t, page, merged);
    hide Latest, IsPage, Lists;
  }

  // ---- a page that was read earlier ----

  function Low(items: seq<Item>, page: seq<Item>): MessageId
    requires items != []
  {
    if page == [] || items[0].id <= page[|page| - 1].id then items[0].id else page[|page| - 1].id
  }

  function High(items: seq<Item>, page: seq<Item>): MessageId
    requires items != []
  {
    if page == [] || page[0].id <= items[|items| - 1].id then items[|items| - 1].id else page[0].id
  }

  /** Messages between the ends of the screen and the page that are not on screen. */
  function Between(items: seq<Item>, page: seq<Item>, now: Thread): set<MessageId>
    requires items != []
  {
    set k | k in now && Low(items, page) <= k <= High(items, page) && Item(k, now[k]) !in items
  }

  lemma MergedEnds(items: seq<Item>, page: seq<Item>, merged: seq<Item>)
    requires items != [] && Ascending(items) && Descending(page) && Ascending(merged)
    requires forall x :: x in merged <==> x in items || x in page
    ensures merged != [] && merged[0].id == Low(items, page) && merged[|merged| - 1].id == High(items, page)
  {
    assert items[0] in merged && items[|items| - 1] in merged;
    var low, high := merged[0], merged[|merged| - 1];
    assert low in merged && high in merged;
    Ends(merged, items[0]);
    Ends(merged, items[|items| - 1]);
    if page != [] {
      assert page[0] in page && page[|page| - 1] in page;
      Ends(merged, page[0]);
      Ends(merged, page[|page| - 1]);
      PageEnds(page, if low in page then low else page[0]);
      PageEnds(page, if high in page then high else page[0]);
    }
    Ends(items, if low in items then low else items[0]);
    Ends(items, if high in items then high else items[0]);
  }

  lemma PageEnds(page: seq<Item>, x: Item)
    requires Descending(page) && x in page
    ensures page[|page| - 1].id <= x.id <= page[0].id
  {
    var i :| 0 <= i < |page| && page[i] == x;
  }

  /** A page read from `t` reaches a screen that shows `now`, which may hold sends answered since:
      nothing is missing between the ends afterwards exactly when every message that is missing
      existed when the page was read and was among the newest 60 then. */
  lemma LateReloadGap(items: seq<Item>, t: Thread, now: Thread, page: seq<Item>, merged: seq<Item>)
    requires items != [] && Shows(items, now) && Grown(t, now) && IsPage(t, 0, page)
    requires Lists(merged, Latest(items + Reversed(page)))
    ensures Unbroken(merged, now) <==> forall k | k in Between(items, page, now) :: k in t && |NotOlder(t, k)| <= PAGE
  {
    MergeShows(items, Reversed(page), now, merged);
    assert Descending(page);
    hide Latest, Lists, Reversed, IsPage, Grown, Unbroken;
    UnbrokenBetween(items, page, now, merged);
    forall k | k in Between(items, page, now)
      ensures k in now && (Item(k, now[k]) in merged <==> k in t && |NotOlder(t, k)| <= PAGE)
    {
      InLatePage(t, now, page, k);
    }
    hide Between, NotOlder;
  }

  lemma UnbrokenBetween(items: seq<Item>, page: seq<Item>, now: Thread, merged: seq<Item>)
    requires items != [] && Ascending(items) && Descending(page) && Ascending(merged)
    requires forall x :: x in merged <==> x in items || x in page
    ensures Unbroken(merged, now) <==> forall k | k in Between(items, page, now) :: k in now && Item(k, now[k]) in merged
  {
    MergedEnds(items, page, merged);
    hide Low, High, Ascending, Descending;
  }

  lemma InLatePage(t: Thread, now: Thread, page: seq<Item>, k: MessageId)
    requires Grown(t, now) && IsPage(t, 0, page) && k in now
    ensures Item(k, now[k]) in page <==> k in t && |NotOlder(t, k)| <= PAGE
  {
    if k in t { NewestPageHolds(t, page, k); }
  }

  lemma FirstLoadUnbroken(t: Thread, now: Thread, page: seq<Item>, merged: seq<Item>)
    requires Grown(t, now) && IsPage(t, 0, page) && Shows(merged, now) && forall x :: x in merged <==> x in page
    ensures Unbroken(merged, now)
  {
    if merged != [] {
      assert merged[0] in page && merged[|merged| - 1] in page;
      forall k | k in now && merged[0].id <= k <= merged[|merged| - 1].id ensures Item(k, now[k]) in merged {
        assert k in t;
      }
    }
  }

  /** A reload of a screen that showed the thread as it was `before`, by a page of the thread as it
      was at `t`; `now` is at least as late as both. */
  lemma LoadShows(items: seq<Item>, before: Thread, t: Thread, now: Thread, page: seq<Item>, merged: seq<Item>)
    requires Shows(items, before) && Grown(before, now) && Grown(t, now) && IsPage(t, 0, page)
    requires Lists(merged, Latest(items + Reversed(page)))
    ensures Shows(merged, now) && forall x :: x in merged <==> x in items || x in page
    ensures items == [] ==> Unbroken(merged, now)
    ensures items != [] ==>
      (Unbroken(merged, now) <==> forall k | k in Between(items, page, now) :: k in t && |NotOlder(t, k)| <= PAGE)
    ensures items != [] && t == now ==> (Unbroken(merged, t) <==> forall k | k in Missing(items, t) :: |NotOlder(t, k)| <= PAGE)
    ensures items != [] && t == now && Unbroken(items, before) ==>
      (Unbroken(merged, t) <==> |Newer(t, items[|items| - 1].id)| <= PAGE)
  {
    ShowsLater(items, before, now);
    MergeShows(items, Reversed(page), now, merged);
    hide Latest, IsPage, Grown, Lists, Missing, Between;
    if items == [] {
      FirstLoadUnbroken(t, now, page, merged);
    } else {
      LateReloadGap(items, t, now, page, merged);
      if t == now {
        ReloadGap(items, t, page, merged);
        if Unbroken(items, t) { ReloadOfUnbroken(items, t, page, merged); }
      }
    }
    hide Unbroken;
  }

  // ---- the way back ----

  /** The screen goes back to the first message. */
  ghost predicate Reaches(items: seq<Item>, t: Thread) {
    forall k | k in t :: items != [] && items[0].id <= k
  }

  lemma ReachesLater(items: seq<Item>, t: Thread, u: Thread)
    requires items != [] && Shows(items, t) && Reaches(items, t) && Grown(t, u)
    ensures Reaches(items, u)
  {
    assert In(t, items[0]);
  }

  lemma ReachesEarlier(items: seq<Item>, t: Thread, u: Thread)
    requires Reaches(items, u) && Grown(t, u)
    ensures Reaches(items, t)
  {}

  /** After a full page the merged screen reaches the first message exactly when the screen did
      before or the page is everything. */
  lemma FullPageReaches(items: seq<Item>, t: Thread, now: Thread, page: seq<Item>, merged: seq<Item>)
    requires Shows(items, now) && Grown(t, now) && IsPage(t, 0, page) && |page| == PAGE && Ascending(merged)
    requires forall x :: x in merged <==> x in items || x in page
    ensures Reaches(merged, t) <==> (items != [] && Reaches(items, t)) || |t| <= PAGE
  {
    var last := page[PAGE - 1];
    assert last in page && last in merged && merged[0] in merged;
    IdsCount(page);
    Ends(merged, last);
    forall x | x in page ensures x.id in t && last.id <= x.id { PageEnds(page, x); }
    if |t| <= PAGE {
      SubsetSize(Ids(page), t.Keys);
      forall k | k in t ensures merged[0].id <= k { assert k in Ids(page); }
    }
    if items != [] {
      assert items[0] in items;
      Ends(merged, items[0]);
      if merged[0] in items { Ends(items, merged[0]); }
    }
    if Reaches(merged, t) && merged[0] in page {
      forall k | k in t ensures k in Ids(page) {
        assert Item(k, t[k]) in page;
        assert Item(k, t[k]).id == k;
      }
      SubsetSize(t.Keys, Ids(page));
    }
  }

  /** A short page is everything there was. */
  lemma ShortPageReaches(t: Thread, page: seq<Item>, merged: seq<Item>)
    requires IsPage(t, 0, page) && |page| < PAGE && Ascending(merged) && forall x | x in page :: x in merged
    ensures Reaches(merged, t)
  {
    forall k | k in t ensures merged != [] && merged[0].id <= k {
      assert Item(k, t[k]) in page;
      Ends(merged, Item(k, t[k]));
    }
  }

  lemma MergeReaches(items: seq<Item>, t: Thread, merged: seq<Item>)
    requires items != [] && Reaches(items, t) && Ascending(merged) && forall x | x in items :: x in merged
    ensures Reaches(merged, t)
  {
    assert items[0] in items;
    Ends(merged, items[0]);
  }

  /** A page fetched below the first item goes in front of it, without a gap; after a short one the
      timeline reaches back to the first message. */
  lemma OlderKeeps(items: seq<Item>, t: Thread, page: seq<Item>)
    requires items != [] && Shows(items, t) && IsPage(t, items[0].id, page) && 0 !in t
    ensures var all := Reversed(page) + items;
      && Shows(all, t) && (Unbroken(items, t) ==> Unbroken(all, t))
      && (|page| < PAGE ==> forall k | k in t && k < items[0].id :: Item(k, t[k]) in all)
  {
    var all := Reversed(page) + items;
    assert items[0] in items;
    forall x | x in items ensures items[0].id <= x.id { Ends(items, x); }
    forall x | x in all ensures In(t, x) {}
    assert all[|all| - 1] == items[|items| - 1];
    var lowest := all[0];
    assert lowest in page || lowest == items[0];
    forall k | k in t && lowest.id <= k < items[0].id ensures Item(k, t[k]) in all {}
  }

  predicate Unseen(items: seq<Item>, x: Item, k: MessageId)
    requires items != []
  {
    x.id < k < items[0].id || items[|items| - 1].id < k < x.id
  }

  lemma SentBounds(items: seq<Item>, x: Item, merged: seq<Item>)
    requires items != [] && Ascending(items) && Ascending(merged) && forall y :: y in merged <==> y in items || y == x
    ensures merged != []
    ensures merged[0].id == if x.id < items[0].id then x.id else items[0].id
    ensures merged[|merged| - 1].id == if items[|items| - 1].id < x.id then x.id else items[|items| - 1].id
  {
    assert x in merged && items[0] in merged && items[|items| - 1] in merged;
    var low, high := merged[0], merged[|merged| - 1];
    assert low in merged && high in merged;
    Ends(merged, x);
    Ends(merged, items[0]);
    Ends(merged, items[|items| - 1]);
    Ends(items, if low in items then low else items[0]);
    Ends(items, if high in items then high else items[0]);
  }

  /** An answered send joins the timeline without a gap exactly when nothing unseen lies between it
      and the screen: a retry may be answered with a message sent long ago. */
  lemma SentGap(items: seq<Item>, t: Thread, x: Item, merged: seq<Item>)
    requires items != [] && Shows(items, t) && Unbroken(items, t) && In(t, x) && Lists(merged, Latest(items + [x]))
    ensures Unbroken(merged, t) <==> forall k | k in t :: !Unseen(items, x, k)
  {
    MergeShows(items, [x], t, merged);
    SentBounds(items, x, merged);
    forall y | y in items ensures items[0].id <= y.id <= items[|items| - 1].id { Ends(items, y); }
    forall k | k in t ensures Item(k, t[k]) in merged <==> Item(k, t[k]) in items || k == x.id {}
    hide Latest, Lists, Ascending;
  }

  /** A late answer for an earlier `before`: the screen stays in order exactly when the newest item
      of the page is older than what is now first. */
  lemma LateOlder(items: seq<Item>, page: seq<Item>)
    requires Ascending(items) && Descending(page)
    ensures Ascending(Reversed(page) + items) <==> items == [] || page == [] || page[0].id < items[0].id
  {
    var back := Reversed(page);
    var all := back + items;
    if items != [] && page != [] {
      assert all[|page|] == items[0];
      assert Ascending(all) ==> forall x | x in back :: x.id < items[0].id by {
        if Ascending(all) {
          forall x | x in back ensures x.id < items[0].id {
            var i :| 0 <= i < |back| && back[i] == x;
            assert |back| == |page| by { assert |back| == |page|; }
            assert all[i] == x;
          }
        }
      }
      assert page[0] in back;
      if page[0].id < items[0].id {
        forall x | x in back ensures x.id <= page[0].id {
          var i :| 0 <= i < |page| && page[i] == x;
        }
      }
    }
  }

  /** A reload cannot reach below a `before` that at least 60 messages are not older than, so
      reloads may overlap the one request for older messages. */
  lemma ReloadsStayAbove(t: Thread, u: Thread, before: MessageId, page: seq<Item>)
    requires Grown(t, u) && IsPage(u, 0, page) && |NotOlder(t, before)| >= PAGE
    ensures forall x | x in page :: before <= x.id
  {
    var above := NotOlder(t, before);
    IdsCount(page);
    if x :| x in page && x.id < before {
      assert Ids(page) == (Ids(page) - {x.id}) + {x.id};
      forall k | k in above ensures k in Ids(page) - {x.id} {
        assert Item(k, u[k]) in page;
        assert Item(k, u[k]).id == k;
      }
      SubsetSize(above, Ids(page) - {x.id});
    }
  }

  lemma LoadReaches(items: seq<Item>, before: Thread, t: Thread, now: Thread, page: seq<Item>, merged: seq<Item>)
    requires Shows(items, before) && Grown(before, now) && Grown(t, now) && IsPage(t, 0, page) && Shows(merged, now)
    requires forall x :: x in merged <==> x in items || x in page
    ensures |page| <= PAGE
    ensures |page| < PAGE ==> Reaches(merged, t)
    ensures |page| == PAGE ==> (Reaches(merged, t) <==> (items != [] && Reaches(items, t)) || |t| <= PAGE)
    ensures items != [] && Reaches(items, before) ==> merged != [] && Reaches(merged, now) && Reaches(merged, t)
  {
    ShowsLater(items, before, now);
    if |page| < PAGE { ShortPageReaches(t, page, merged); } else { FullPageReaches(items, t, now, page, merged); }
    if items != [] && Reaches(items, before) {
      assert items[0] in items && items[0] in merged;
      ReachesLater(items, before, now);
      MergeReaches(items, now, merged);
      ReachesEarlier(merged, t, now);
    }
    hide Reaches, Grown;
  }

  // ---- the retry token ----

  datatype Token = Token(body: string, clientId: ClientId)

  /** The token of the previous try is used again as long as the trimmed draft is the same. */
  function NextToken(retry: Option<Token>, body: string, freshId: ClientId): Token {
    if retry.Some? && retry.value.body == body then retry.value else Token(body, freshId)
  }

  class Screen {
    var items: seq<Item>
    var hasOlder: bool
    var olderExhausted: bool
    var draft: string
    var retry: Option<Token>

    constructor ()
      ensures items == [] && !hasOlder && !olderExhausted && draft == "" && retry == None
    {
      items, hasOlder, olderExhausted, draft, retry := [], false, false, "", None;
    }

    /** Puts the values of a Map in ascending order. */
    method SortById(m: Thread) returns (sorted: seq<Item>)
      ensures Lists(sorted, m)
    {
      sorted := [];
      var rest := m.Keys;
      while rest != {}
        invariant rest <= m.Keys && Ascending(sorted)
        invariant forall x :: x in sorted <==> In(m, x) && x.id !in rest
        invariant forall x, k | x in sorted && k in rest :: k < x.id
        decreases rest
      {
        var top := Newest(rest);
        sorted := [Item(top, m[top])] + sorted;
        rest := rest - {top};
      }
    }

    method Merge(extra: seq<Item>)
      modifies `items
      ensures Lists(items, Latest(old(items) + extra))
    {
      var all := items + extra;
      var latest: Thread := map[];
      var i := 0;
      while i < |all|
        invariant 0 <= i <= |all| && latest == Latest(all[..i])
      {
        latest := latest[all[i].id := all[i].message];
        i := i + 1;
        assert all[..i][..i - 1] == all[..i - 1];
      }
      assert all[..i] == all;
      items := SortById(latest);
    }

    /** With no older pages left to ask for, the screen goes back to the first message. */
    ghost predicate ExhaustedOk(t: Thread)
      reads this
    {
      olderExhausted ==> items != [] && Reaches(items, t)
    }

    /** Hiding the button is right: there is nothing older than the screen. */
    ghost predicate ButtonOk(t: Thread)
      reads this
    {
      !hasOlder ==> Reaches(items, t)
    }

    /** A reload answered with the newest page of the thread as it was at `t`; the screen may show
        sends answered since, and `now` is the thread at present. */
    method Load(ghost before: Thread, ghost t: Thread, ghost now: Thread, page: seq<Item>)
      requires Shows(items, before) && Grown(before, now) && Grown(t, now) && IsPage(t, 0, page)
      modifies `items, `hasOlder
      ensures Shows(items, now)
      ensures forall x :: x in items <==> x in old(items) || x in page
      ensures old(items) == [] ==> Unbroken(items, now)
      ensures old(items) != [] ==>
        (Unbroken(items, now) <==> forall k | k in Between(old(items), page, now) :: k in t && |NotOlder(t, k)| <= PAGE)
      ensures old(items) != [] && t == now ==>
        (Unbroken(items, t) <==> forall k | k in Missing(old(items), t) :: |NotOlder(t, k)| <= PAGE)
      ensures old(items) != [] && t == now && Unbroken(old(items), before) ==>
        (Unbroken(items, t) <==> |Newer(t, old(items)[|old(items)| - 1].id)| <= PAGE)
      ensures ButtonOk(t) <==>
        |page| < PAGE || !olderExhausted || |t| <= PAGE || (old(items) != [] && Reaches(old(items), t))
      ensures old(ExhaustedOk(before)) ==> ExhaustedOk(now) && ButtonOk(t)
    {
      hide Latest, IsPage, Unbroken, Grown, Lists, Missing, Between, Shows, Reaches, NotOlder, Newer, Reversed;
      ghost var was := items;
      Merge(Reversed(page));
      hasOlder := !olderExhausted && |page| == PAGE;
      LoadShows(was, before, t, now, page, items);
      LoadReaches(was, before, t, now, page, items);
    }

    /** A reload the server refused clears the screen. The flag is not reset, so if the older pages
        had all been fetched there is no way back to them. */
    method LoadRefused(ghost t: Thread)
      modifies `items
      ensures items == []
      ensures ExhaustedOk(t) <==> !olderExhausted
      ensures t != map[] ==> (ButtonOk(t) <==> hasOlder)
    {
      items := [];
      assert t != map[] ==> exists k :: k in t;
    }

    /** The `before` of a request for older messages: below everything on screen, and no request
        from an empty screen. */
    method OlderFrom() returns (before: Option<MessageId>)
      requires Ascending(items)
      ensures before.None? <==> items == []
      ensures before.Some? ==> before.value in Ids(items) && forall x | x in items :: before.value <= x.id
    {
      if |items| == 0 { return None; }
      forall x | x in items ensures items[0].id <= x.id { Ends(items, x); }
      assert items[0] in items;
      return Some(items[0].id);
    }

    /** The next page below the first item, nothing else having changed the screen meanwhile. */
    method Older(ghost before: Thread, ghost t: Thread, page: seq<Item>)
      requires items != [] && Shows(items, before) && Grown(before, t) && 0 !in t
      requires IsPage(t, items[0].id, page)
      modifies `items, `hasOlder, `olderExhausted
      ensures Shows(items, t) && items == Reversed(page) + old(items)
      ensures Unbroken(old(items), before) ==> Unbroken(items, t)
      ensures ButtonOk(t) && ExhaustedOk(t) && olderExhausted == !hasOlder
      ensures olderExhausted ==> forall k | k in t && k < old(items)[0].id :: Item(k, t[k]) in items
    {
      ShowsLater(items, before, t);
      OlderKeeps(items, t, page);
      ghost var was := items;
      olderExhausted := |page| < 60;
      items := Reversed(page) + items;
      hasOlder := |page| == 60;
      assert items[|Reversed(page)|] == was[0] && was[0] in items;
      Ends(items, was[0]);
      forall k | k in t && Item(k, t[k]) in items ensures items[0].id <= k { Ends(items, Item(k, t[k])); }
    }

    /** What Send posts, or nothing for a blank draft. */
    method BeginSend(freshId: ClientId) returns (posted: Option<Token>)
      modifies `retry
      ensures var body := Preferences.Trim(draft);
        posted == if body == "" then None else Some(NextToken(old(retry), body, freshId))
      ensures retry == if posted.Some? then posted else old(retry)
    {
      var body := Preferences.Trim(draft);
      if body == "" { return None; }
      if retry.None? || retry.value.body != body { retry := Some(Token(body, freshId)); }
      posted := retry;
    }

    /** The server answered; a failed try instead changes nothing, so the token stays. */
    method SendAnswered(ghost t: Thread, x: Item)
      requires Shows(items, t) && In(t, x)
      modifies `items, `draft, `retry
      ensures Shows(items, t) && forall y :: y in items <==> y in old(items) || y == x
      ensures draft == "" && retry == None
      ensures old(ButtonOk(t)) ==> ButtonOk(t)
      ensures old(ExhaustedOk(t)) ==> ExhaustedOk(t)
    {
      ghost var was := items;
      Merge([x]);
      MergeShows(was, [x], t, items);
      draft, retry := "", None;
      if was != [] && Reaches(was, t) { MergeReaches(was, t, items); }
      assert x.id in t;
    }
  }

  // ---- exactly once, from the button to the table ----

  /** One press of Send: the trimmed draft at that time, and the client id drawn for it. */
  datatype Try = Try(body: string, freshId: ClientId)

  /** What the server does: it runs the send of try `k`, whenever the request arrives, or somebody
      else's transaction. `offered` is the identity value that the insert would use. */
  datatype Event = Arrives(k: nat, offered: MessageId) | Traffic

  /** The token of each try, when no answer has come back in between. */
  function TokenAt(tries: seq<Try>, k: nat): Token
    requires k < |tries|
  {
    NextToken(if k == 0 then None else Some(TokenAt(tries, k - 1)), tries[k].body, tries[k].freshId)
  }

  predicate FreshIds(tries: seq<Try>) {
    forall i, j | 0 <= i < j < |tries| :: tries[i].freshId != tries[j].freshId
  }

  predicate Unedited(tries: seq<Try>, j: nat, k: nat)
    requires k < |tries|
  {
    forall i | j < i <= k :: tries[i].body == tries[i - 1].body
  }

  lemma {:induction false} TokenOrigin(tries: seq<Try>, k: nat) returns (i: nat)
    requires k < |tries|
    ensures i <= k && TokenAt(tries, k) == Token(tries[k].body, tries[i].freshId)
  {
    if k > 0 && TokenAt(tries, k - 1).body == tries[k].body {
      i := TokenOrigin(tries, k - 1);
    } else {
      i := k;
    }
  }

  /** Two unanswered tries carry the same client id exactly when the draft was not edited in
      between; restoring an earlier text does not bring its client id back. */
  lemma {:induction false} SameTokenIffUnedited(tries: seq<Try>, j: nat, k: nat)
    requires j <= k < |tries| && FreshIds(tries)
    ensures TokenAt(tries, j).clientId == TokenAt(tries, k).clientId <==> Unedited(tries, j, k)
    ensures TokenAt(tries, j) == TokenAt(tries, k) <==> Unedited(tries, j, k)
  {
    if j < k {
      SameTokenIffUnedited(tries, j, k - 1);
      var o := TokenOrigin(tries, k - 1);
      if tries[k].body == tries[k - 1].body {
        assert TokenAt(tries, k) == TokenAt(tries, k - 1);
      } else {
        var i := TokenOrigin(tries, j);
      }
    }
  }

  function Post(tries: seq<Try>, k: nat, c: ConnectionId, me: UserId): Message
    requires k < |tries|
  {
    Message(c, me, TokenAt(tries, k).clientId, tries[k].body)
  }

  /** The connection accepts sends of this user. */
  predicate Accepts(d: Tables, c: ConnectionId, me: UserId) {
    c in d.rows && !d.rows[c].ended && d.rows[c].Has(me)
  }

  /** Everybody else's transactions: no stored message changes, and none appears under one of the
      client ids drawn here. */
  ghost predicate Others(tries: seq<Try>, me: UserId, d: Tables, e: Tables) {
    && Inv(e)
    && (forall i | i in d.messages :: i in e.messages && e.messages[i] == d.messages[i])
    && (forall i, k | i in e.messages && i !in d.messages && 0 <= k < |tries| ::
          e.messages[i].sender == me ==> e.messages[i].clientId != tries[k].freshId)
  }

  ghost predicate SendRuns(d: Tables, m: Message, offered: MessageId, e: Tables) {
    1 <= offered && offered !in d.messages && exists r :: Sends(d, m, offered, e, r)
  }

  /** Requests arrive in any order, late, repeatedly or never. */
  ghost predicate EventAt(tries: seq<Try>, log: seq<Event>, c: ConnectionId, me: UserId, ds: seq<Tables>, n: nat)
    requires |ds| == |log| + 1
  {
    n < |log| ==>
      match log[n]
      case Arrives(k, offered) =>
        k < |tries| && SendRuns(ds[n], Post(tries, k, c, me), offered, ds[n + 1])
      case Traffic => Others(tries, me, ds[n], ds[n + 1])
  }

  /** ds are the tables along the log. */
  ghost predicate Served(tries: seq<Try>, log: seq<Event>, c: ConnectionId, me: UserId, ds: seq<Tables>) {
    && |ds| == |log| + 1 && FreshIds(tries) && Inv(ds[0])
    && (forall k | 0 <= k < |tries| :: ValidBody(tries[k].body))
    && (forall i, k | i in ds[0].messages && 0 <= k < |tries| ::
          ds[0].messages[i].sender == me ==> ds[0].messages[i].clientId != tries[k].freshId)
    && forall n :: EventAt(tries, log, c, me, ds, n)
  }

  /** Event n brings try k to an accepting connection. */
  predicate DeliveredAt(log: seq<Event>, c: ConnectionId, me: UserId, ds: seq<Tables>, n: nat, k: nat)
    requires |ds| == |log| + 1 && n < |log|
  {
    log[n].Arrives? && log[n].k == k && Accepts(ds[n], c, me)
  }

  /** Try k has been delivered before n. */
  predicate Delivered(log: seq<Event>, c: ConnectionId, me: UserId, ds: seq<Tables>, n: nat, k: nat)
    requires |ds| == |log| + 1 && n <= |log|
  {
    exists e | 0 <= e < n :: DeliveredAt(log, c, me, ds, e, k)
  }

  /** Messages under the client id of a token. */
  function Under(d: Tables, me: UserId, tok: Token): set<MessageId> {
    set i | i in d.messages && d.messages[i].sender == me && d.messages[i].clientId == tok.clientId
  }

  /** They all are the draft of that token in this connection. */
  ghost predicate Genuine(d: Tables, c: ConnectionId, me: UserId, tok: Token) {
    forall i | i in Under(d, me, tok) :: d.messages[i] == Message(c, me, tok.clientId, tok.body)
  }

  lemma AtMostOne(d: Tables, me: UserId, tok: Token, i: MessageId)
    requires Inv(d) && i in Under(d, me, tok)
    ensures Under(d, me, tok) == {i}
  {
    forall j | j in Under(d, me, tok) ensures j == i { assert KeysApart(d, i, j); }
  }

  lemma SendStep(d: Tables, posted: Token, offered: MessageId, e: Tables, r: Reply, c: ConnectionId, me: UserId, tok: Token)
    requires Inv(d) && Genuine(d, c, me, tok) && ValidBody(posted.body)
    requires 1 <= offered && offered !in d.messages
    requires Sends(d, Message(c, me, posted.clientId, posted.body), offered, e, r)
    requires posted.clientId == tok.clientId ==> posted == tok
    ensures Inv(e) && Genuine(e, c, me, tok)
    ensures Under(e, me, tok) != {} <==> Under(d, me, tok) != {} || (posted == tok && Accepts(d, c, me))
  {
    var m := Message(c, me, posted.clientId, posted.body);
    SendKeeps(d, m, offered, e, r);
    forall i | i in Under(d, me, tok) ensures i in Under(e, me, tok) {}
    if posted == tok && Accepts(d, c, me) {
      forall i ensures HasKey(d, m, i) <==> i in Under(d, me, tok) {}
      assert r.Stored?;
      assert r.id in Under(e, me, tok);
    }
    forall i | i in Under(e, me, tok) && i !in Under(d, me, tok) ensures i == offered && posted == tok && Accepts(d, c, me) {}
  }

  lemma OthersStep(tries: seq<Try>, me: UserId, d: Tables, e: Tables, c: ConnectionId, k: nat)
    requires Others(tries, me, d, e) && k < |tries| && Genuine(d, c, me, TokenAt(tries, k))
    ensures Genuine(e, c, me, TokenAt(tries, k)) && Under(e, me, TokenAt(tries, k)) == Under(d, me, TokenAt(tries, k))
  {
    var o := TokenOrigin(tries, k);
    forall i | i in Under(e, me, TokenAt(tries, k)) ensures i in d.messages {}
  }

  lemma OneBodyPerId(tries: seq<Try>, j: nat, k: nat)
    requires j < |tries| && k < |tries| && FreshIds(tries)
    requires TokenAt(tries, j).clientId == TokenAt(tries, k).clientId
    ensures TokenAt(tries, j) == TokenAt(tries, k)
  {
    if j <= k { SameTokenIffUnedited(tries, j, k); } else { SameTokenIffUnedited(tries, k, j); }
  }

  /** Some try with the token of try j has been delivered before n. */
  predicate DeliveredUnder(tries: seq<Try>, log: seq<Event>, c: ConnectionId, me: UserId, ds: seq<Tables>, n: nat, j: nat)
    requires |ds| == |log| + 1 && n <= |log| && j < |tries|
  {
    exists k | 0 <= k < |tries| :: TokenAt(tries, k) == TokenAt(tries, j) && Delivered(log, c, me, ds, n, k)
  }

  lemma DeliveredMore(tries: seq<Try>, log: seq<Event>, c: ConnectionId, me: UserId, ds: seq<Tables>, n: nat, j: nat)
    requires |ds| == |log| + 1 && n < |log| && j < |tries| && (log[n].Arrives? ==> log[n].k < |tries|)
    ensures DeliveredUnder(tries, log, c, me, ds, n + 1, j) <==>
      || DeliveredUnder(tries, log, c, me, ds, n, j)
      || (log[n].Arrives? && TokenAt(tries, log[n].k) == TokenAt(tries, j) && Accepts(ds[n], c, me))
  {
    hide TokenAt, Accepts;
    forall k | 0 <= k < |tries|
      ensures Delivered(log, c, me, ds, n + 1, k) <==> Delivered(log, c, me, ds, n, k) || DeliveredAt(log, c, me, ds, n, k)
    {}
    if log[n].Arrives? && Accepts(ds[n], c, me) { assert DeliveredAt(log, c, me, ds, n, log[n].k); }
    hide Delivered;
  }

  lemma {:induction false} StoredIffDelivered(
    tries: seq<Try>, log: seq<Event>, c: ConnectionId, me: UserId, ds: seq<Tables>, n: nat, j: nat)
    requires Served(tries, log, c, me, ds) && n <= |log| && j < |tries|
    ensures Inv(ds[n]) && Genuine(ds[n], c, me, TokenAt(tries, j))
    ensures Under(ds[n], me, TokenAt(tries, j)) != {} <==> DeliveredUnder(tries, log, c, me, ds, n, j)
  {
    var tok := TokenAt(tries, j);
    if n == 0 {
      var o := TokenOrigin(tries, j);
      assert Under(ds[0], me, tok) == {};
    } else {
      StoredIffDelivered(tries, log, c, me, ds, n - 1, j);
      assert EventAt(tries, log, c, me, ds, n - 1);
      DeliveredMore(tries, log, c, me, ds, n - 1, j);
      hide Inv, Others, Sends, Genuine, Under, Delivered, Served;
      match log[n - 1]
      case Arrives(k, offered) =>
        var r :| Sends(ds[n - 1], Post(tries, k, c, me), offered, ds[n], r);
        if TokenAt(tries, k).clientId == tok.clientId { OneBodyPerId(tries, k, j); }
        var o := TokenOrigin(tries, k);
        SendStep(ds[n - 1], TokenAt(tries, k), offered, ds[n], r, c, me, tok);
      case Traffic => OthersKeepInv(tries, me, ds[n - 1], ds[n]); OthersStep(tries, me, ds[n - 1], ds[n], c, j);
    }
  }

  lemma OthersKeepInv(tries: seq<Try>, me: UserId, d: Tables, e: Tables)
    requires Others(tries, me, d, e)
    ensures Inv(e)
  {}

  /** Exactly once: however many requests and answers are lost, and in whatever order the others
      arrive, the tries under one token have stored one message, the draft itself, if any of them
      was delivered, and none otherwise. */
  lemma ExactlyOnce(tries: seq<Try>, log: seq<Event>, c: ConnectionId, me: UserId, ds: seq<Tables>, n: nat, j: nat)
    requires Served(tries, log, c, me, ds) && n <= |log| && j < |tries|
    ensures |Under(ds[n], me, TokenAt(tries, j))| == if DeliveredUnder(tries, log, c, me, ds, n, j) then 1 else 0
    ensures forall i | i in Under(ds[n], me, TokenAt(tries, j)) ::
      ds[n].messages[i] == Message(c, me, TokenAt(tries, j).clientId, tries[j].body)
  {
    StoredIffDelivered(tries, log, c, me, ds, n, j);
    var o := TokenOrigin(tries, j);
    if i :| i in Under(ds[n], me, TokenAt(tries, j)) { AtMostOne(ds[n], me, TokenAt(tries, j), i); }
    hide DeliveredUnder, Served, Inv;
  }

  /** Two delivered tries are the same message exactly when the draft was not edited between them:
      a draft that was edited and restored is stored twice. */
  lemma SameMessageIffUnedited(tries: seq<Try>, log: seq<Event>, c: ConnectionId, me: UserId, ds: seq<Tables>, n: nat, j: nat, k: nat)
    requires Served(tries, log, c, me, ds) && n <= |log| && j <= k < |tries|
    requires Delivered(log, c, me, ds, n, j) && Delivered(log, c, me, ds, n, k)
    ensures Under(ds[n], me, TokenAt(tries, j)) == Under(ds[n], me, TokenAt(tries, k)) <==> Unedited(tries, j, k)
    ensures |Under(ds[n], me, TokenAt(tries, j)) + Under(ds[n], me, TokenAt(tries, k))| == if Unedited(tries, j, k) then 1 else 2
  {
    StoredIffDelivered(tries, log, c, me, ds, n, j);
    StoredIffDelivered(tries, log, c, me, ds, n, k);
    SameTokenIffUnedited(tries, j, k);
    hide Delivered, Served, Inv, Genuine, Unedited;
    assert DeliveredUnder(tries, log, c, me, ds, n, j) && DeliveredUnder(tries, log, c, me, ds, n, k);
    var a :| a in Under(ds[n], me, TokenAt(tries, j));
    var b :| b in Under(ds[n], me, TokenAt(tries, k));
    AtMostOne(ds[n], me, TokenAt(tries, j), a);
    AtMostOne(ds[n], me, TokenAt(tries, k), b);
    assert {a} + {b} == {a, b};
  }

  /** The messages of all tries of one unedited draft are a single one. */
  lemma OneDraftOneMessage(tries: seq<Try>, log: seq<Event>, c: ConnectionId, me: UserId, ds: seq<Tables>, n: nat)
    requires Served(tries, log, c, me, ds) && n <= |log| && tries != [] && Unedited(tries, 0, |tries| - 1)
    ensures forall j | 0 <= j < |tries| :: Under(ds[n], me, TokenAt(tries, j)) == Under(ds[n], me, TokenAt(tries, 0))
    ensures |Under(ds[n], me, TokenAt(tries, 0))| == if exists k | 0 <= k < |tries| :: Delivered(log, c, me, ds, n, k) then 1 else 0
  {
    forall j | 0 <= j < |tries| ensures TokenAt(tries, j) == TokenAt(tries, 0) {
      assert Unedited(tries, 0, j);
      SameTokenIffUnedited(tries, 0, j);
    }
    ExactlyOnce(tries, log, c, me, ds, n, 0);
    hide Delivered, Served, TokenAt, Unedited;
  }
}

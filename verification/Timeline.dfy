/** Reading a conversation: the server pages through messages by identifier, and the client keeps
    one ascending timeline out of the newest page, older pages and its own sends. */
module Timeline {
  import opened Basics
  import opened Messaging

  const PAGE := 60

  /** The committed messages of one connection. */
  type Thread = map<MessageId, Message>

  datatype Item = Item(id: MessageId, message: Message)

  predicate In(t: Thread, x: Item) { x.id in t && t[x.id] == x.message }

  predicate Ascending(s: seq<Item>) { forall i, j :: 0 <= i < j < |s| ==> s[i].id < s[j].id }

  predicate Descending(s: seq<Item>) { forall i, j :: 0 <= i < j < |s| ==> s[j].id < s[i].id }

  /** The list is the thread, in ascending order. */
  ghost predicate Lists(s: seq<Item>, t: Thread) {
    Ascending(s) && forall x :: x in s <==> In(t, x)
  }

  function Reversed(s: seq<Item>): (r: seq<Item>)
    ensures forall x :: x in r <==> x in s
    ensures Descending(s) ==> Ascending(r)
  {
    var r := seq(|s|, i requires 0 <= i < |s| => s[|s| - 1 - i]);
    assert forall k | 0 <= k < |s| :: s[k] == r[|s| - 1 - k];
    r
  }

  function Ids(s: seq<Item>): set<MessageId> { set x | x in s :: x.id }

  lemma {:induction false} IdsCount(s: seq<Item>)
    requires Descending(s)
    ensures |Ids(s)| == |s|
  {
    if s != [] {
      var front, last := s[..|s| - 1], s[|s| - 1];
      IdsCount(front);
      assert s == front + [last];
      assert Ids(s) == Ids(front) + {last.id};
    }
  }

  // ---- one page ----

  /** Zero stands for no limit. */
  predicate Below(i: MessageId, before: MessageId) { before == 0 || i < before }

  /** The newest 60 messages below `before`, newest first; anything left out is older than all of
      a full page. */
  ghost predicate IsPage(t: Thread, before: MessageId, page: seq<Item>) {
    && Descending(page) && |page| <= PAGE
    && (forall x | x in page :: In(t, x) && Below(x.id, before))
    && (forall k | k in t && Below(k, before) && Item(k, t[k]) !in page :: |page| == PAGE && forall x | x in page :: k < x.id)
  }

  method Newest(ids: set<MessageId>) returns (top: MessageId)
    requires ids != {}
    ensures top in ids && forall i | i in ids :: i <= top
  {
    top :| top in ids;
    var rest := ids - {top};
    while rest != {}
      invariant rest <= ids && top in ids
      invariant forall i | i in ids && i !in rest :: i <= top
    {
      var i :| i in rest;
      rest := rest - {i};
      if top < i { top := i; }
    }
  }

  method FetchPage(t: Thread, before: MessageId) returns (page: seq<Item>)
    ensures IsPage(t, before, page)
  {
    page := [];
    var rest := set k | k in t && Below(k, before);
    while rest != {} && |page| < PAGE
      invariant Descending(page) && |page| <= PAGE
      invariant forall k :: k in rest <==> k in t && Below(k, before) && Item(k, t[k]) !in page
      invariant forall x | x in page :: In(t, x) && Below(x.id, before) && forall k | k in rest :: k < x.id
      decreases rest
    {
      var top := Newest(rest);
      page := page + [Item(top, t[top])];
      rest := rest - {top};
    }
  }

  // ---- following `before` ----

  /** Later committed messages have larger identifiers than everything before them (CommitOrder). */
  ghost predicate Grown(t: Thread, u: Thread) {
    && (forall k | k in t :: k in u && u[k] == t[k])
    && (forall k | k in u && k !in t :: forall j | j in t :: j < k)
  }

  function Before(pages: seq<seq<Item>>): MessageId {
    if pages == [] || pages[|pages| - 1] == [] then 0
    else var p := pages[|pages| - 1]; p[|p| - 1].id
  }

  ghost predicate PageAt(ts: seq<Thread>, pages: seq<seq<Item>>, k: nat)
    requires |ts| == |pages|
  {
    k < |pages| ==>
      && IsPage(ts[k], Before(pages[..k]), pages[k])
      && (k + 1 < |pages| ==> |pages[k]| == PAGE && Grown(ts[k], ts[k + 1]))
  }

  /** A reader follows `before` from the newest page for as long as pages are full; ts[k] is the
      thread when page k is read. Identifiers start at 1. */
  ghost predicate Walk(ts: seq<Thread>, pages: seq<seq<Item>>) {
    && |ts| == |pages| && pages != [] && 0 !in ts[0]
    && forall k :: PageAt(ts, pages, k)
  }

  /** What the reader has put together: every page in front of the newer ones. */
  function Shown(pages: seq<seq<Item>>): seq<Item> {
    if pages == [] then []
    else Reversed(pages[|pages| - 1]) + Shown(pages[..|pages| - 1])
  }

  /** Shown are exactly the messages from the last `before` upwards. */
  ghost predicate ShownFrom(t: Thread, pages: seq<seq<Item>>) {
    && Ascending(Shown(pages))
    && (forall x :: x in Shown(pages) <==> In(t, x) && (pages != [] && Before(pages) <= x.id))
  }

  lemma {:induction false} GrownFromStart(ts: seq<Thread>, pages: seq<seq<Item>>, k: nat)
    requires Walk(ts, pages) && k < |ts|
    ensures Grown(ts[0], ts[k])
  {
    if k > 0 {
      GrownFromStart(ts, pages, k - 1);
      assert PageAt(ts, pages, k - 1);
      var a, b, c := ts[0], ts[k - 1], ts[k];
      assert Grown(b, c);
      forall i, j | i in c && i !in a && j in a ensures j < i {
        assert j in b;
      }
    }
  }

  /** A page of the thread as it is now, seen from the start: the messages below `before` that
      existed then, up to a page of them. */
  lemma PageOfStart(t: Thread, u: Thread, b: MessageId, page: seq<Item>)
    requires Grown(t, u) && IsPage(u, b, page) && (b == 0 ==> u == t) && (b != 0 ==> b in t)
    ensures IsPage(t, b, page)
  {
    forall x | x in page ensures In(t, x) { assert x.id in u && Below(x.id, b); }
    forall k | k in t && Below(k, b) && Item(k, t[k]) !in page ensures |page| == PAGE && forall x | x in page :: k < x.id {
      assert Item(k, t[k]) == Item(k, u[k]);
    }
  }

  /** One page more: nothing is skipped and nothing is shown twice. */
  lemma PageExtends(t: Thread, pages: seq<seq<Item>>, page: seq<Item>)
    requires 0 !in t && ShownFrom(t, pages) && IsPage(t, Before(pages), page)
    requires pages != [] ==> Before(pages) in t
    ensures |page| == PAGE ==> ShownFrom(t, pages + [page]) && Before(pages + [page]) in t
    ensures |page| < PAGE ==> Lists(Shown(pages + [page]), t)
  {
    var all := pages + [page];
    assert all[..|pages|] == pages && all[|pages|] == page;
    var newer, shown := Shown(pages), Shown(all);
    assert shown == Reversed(page) + newer;
    var b := Before(pages);
    hide Shown, Reversed, IsPage, Ascending;
    PageInFront(t, b, page, newer);
    if |page| == PAGE {
      var last := page[|page| - 1];
      assert last in page && Before(all) == last.id;
    }
  }

  /** A page is the band of messages from its last one up to `b`; a short page has no lower end. */
  predicate InBand(x: Item, page: seq<Item>, b: MessageId) {
    Below(x.id, b) && (|page| == PAGE ==> page[PAGE - 1].id <= x.id)
  }

  lemma PageIsBand(t: Thread, b: MessageId, page: seq<Item>, x: Item)
    requires IsPage(t, b, page)
    ensures x in page <==> In(t, x) && InBand(x, page, b)
  {
    if x in page {
      var i :| 0 <= i < |page| && page[i] == x;
    } else if In(t, x) && Below(x.id, b) {
      assert x == Item(x.id, t[x.id]);
      assert page[|page| - 1] in page;
    }
  }

  /** A page below `b` in front of everything from `b` upwards. */
  lemma PageInFront(t: Thread, b: MessageId, page: seq<Item>, newer: seq<Item>)
    requires 0 !in t && IsPage(t, b, page) && Ascending(newer) && (b != 0 ==> b in t)
    requires forall x :: x in newer <==> In(t, x) && b != 0 && b <= x.id
    ensures Ascending(Reversed(page) + newer)
    ensures |page| < PAGE ==> forall x :: x in Reversed(page) + newer <==> In(t, x)
    ensures |page| == PAGE ==>
      var last := page[|page| - 1];
      last.id in t && forall x :: x in Reversed(page) + newer <==> In(t, x) && last.id <= x.id
  {
    var back := Reversed(page);
    assert Ascending(back);
    if |page| == PAGE { PageIsBand(t, b, page, page[PAGE - 1]); }
    hide IsPage, Reversed;
    forall x ensures x in back <==> In(t, x) && InBand(x, page, b) { PageIsBand(t, b, page, x); }
    hide In;
    AscendingJoin(back, newer);
  }

  lemma AscendingJoin(a: seq<Item>, b: seq<Item>)
    requires Ascending(a) && Ascending(b) && forall x, y | x in a && y in b :: x.id < y.id
    ensures Ascending(a + b)
  {
    var all := a + b;
    forall i, j | 0 <= i < j < |all| ensures all[i].id < all[j].id {
      if i < |a| <= j { assert all[i] in a && all[j] in b; }
    }
  }

  lemma WalkAt(ts: seq<Thread>, pages: seq<seq<Item>>, n: nat)
    requires Walk(ts, pages) && n < |pages|
    ensures 0 !in ts[0] && IsPage(ts[n], Before(pages[..n]), pages[n])
    ensures n + 1 < |pages| ==> |pages[n]| == PAGE
  {
    hide IsPage, Grown, Before;
    assert PageAt(ts, pages, n);
  }

  /** The reader after page `n`, in terms of the thread at the start. */
  lemma PageDown(ts: seq<Thread>, pages: seq<seq<Item>>, n: nat)
    requires Walk(ts, pages) && n < |pages|
    requires ShownFrom(ts[0], pages[..n]) && (n > 0 ==> Before(pages[..n]) in ts[0])
    ensures |pages[n]| == PAGE ==> ShownFrom(ts[0], pages[..n + 1]) && Before(pages[..n + 1]) in ts[0]
    ensures |pages[n]| < PAGE ==> Lists(Shown(pages[..n + 1]), ts[0])
  {
    hide IsPage, Grown, PageAt, ShownFrom, Shown, Lists;
    WalkAt(ts, pages, n);
    GrownFromStart(ts, pages, n);
    if n == 0 { assert pages[..n] == []; }
    PageOfStart(ts[0], ts[n], Before(pages[..n]), pages[n]);
    PageExtends(ts[0], pages[..n], pages[n]);
    assert pages[..n + 1] == pages[..n] + [pages[n]];
  }

  lemma {:induction false} WalkShows(ts: seq<Thread>, pages: seq<seq<Item>>, n: nat)
    requires Walk(ts, pages) && n < |pages|
    ensures ShownFrom(ts[0], pages[..n]) && (n > 0 ==> Before(pages[..n]) in ts[0])
  {
    if n == 0 {
      assert pages[..n] == [] && Shown([]) == [];
    } else {
      hide IsPage, ShownFrom, Grown, Shown, Before, Walk, PageAt, Lists;
      WalkShows(ts, pages, n - 1);
      WalkAt(ts, pages, n - 1);
      PageDown(ts, pages, n - 1);
    }
  }

  lemma {:induction false} FullPagesShown(pages: seq<seq<Item>>)
    requires forall k | 0 <= k < |pages| :: |pages[k]| == PAGE
    ensures |Shown(pages)| == PAGE * |pages|
  {
    if pages != [] { FullPagesShown(pages[..|pages| - 1]); }
  }

  /** Paging down to the first short page shows every message that existed at the start exactly
      once and in order, however many were sent between the pages. */
  lemma WalkIsComplete(ts: seq<Thread>, pages: seq<seq<Item>>)
    requires Walk(ts, pages) && |pages[|pages| - 1]| < PAGE
    ensures Lists(Shown(pages), ts[0])
  {
    var n := |pages| - 1;
    hide IsPage, ShownFrom, Grown, Shown, Before, PageAt, Lists;
    WalkShows(ts, pages, n);
    PageDown(ts, pages, n);
    assert pages[..n + 1] == pages;
  }

  /** And a short page comes: there is room for at most |ts[0]| / 60 full ones. */
  lemma WalkEnds(ts: seq<Thread>, pages: seq<seq<Item>>)
    requires Walk(ts, pages)
    ensures PAGE * (|pages| - 1) <= |ts[0]|
  {
    var n := |pages| - 1;
    hide IsPage, Grown, Shown, Before, PageAt;
    WalkShows(ts, pages, n);
    forall k | 0 <= k < n ensures |pages[..n][k]| == PAGE { WalkAt(ts, pages, k); }
    FullPagesShown(pages[..n]);
    ShownFits(Shown(pages[..n]), ts[0]);
  }

  lemma ShownFits(shown: seq<Item>, t: Thread)
    requires Ascending(shown) && forall x | x in shown :: In(t, x)
    ensures |shown| <= |t|
  {
    var down := Reversed(shown);
    assert |down| == |shown| && forall i | 0 <= i < |shown| :: down[i] == shown[|shown| - 1 - i];
    assert Descending(down);
    IdsCount(down);
    SubsetSize(Ids(down), t.Keys);
  }
}

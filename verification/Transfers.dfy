/** Windowed, cursor-paginated transfer acquisition and the wallet-flow answer built on it. */
module Transfers {
  import opened Basics
  import opened Numerals

  datatype Direction = IN | OUT

  /** One item of a page; absent and null members are None. Timestamps are microseconds. */
  datatype Item = Item(
    uniqueId: Option<string>, hash: Option<string>, sender: Option<string>, receiver: Option<string>,
    timestamp: Option<int>, block: Option<nat>, asset: Option<string>, category: Option<string>,
    value: Option<string>, contract: Option<string>, tokenId: Option<string>)

  datatype Page = Page(items: seq<Item>, pageKey: Option<string>)

  datatype Request = Request(field: string, address: string, maxCount: int, pageKey: Option<string>)

  /** `_page` as an abstract page source; None is a `ProviderError`. */
  type Service = Request -> Option<Page>

  type Source = Option<string> -> Option<Page>

  datatype Window = Window(from: Option<int>, to: Option<int>)

  datatype FlowTransfer = FlowTransfer(
    transferId: string, direction: Direction, counterparty: string, txHash: string, block: Option<nat>,
    timestamp: Option<int>, asset: string, category: string, value: Option<string>, contract: Option<string>,
    tokenId: Option<string>)

  const ZERO_ADDRESS := "0x" + Repeat('0', 40)

  function Or(v: Option<string>, default: string): string {
    if v.Some? && v.value != "" then v.value else default
  }

  predicate AboveWindow(w: Window, item: Item) {
    w.to.Some? && (item.timestamp.None? || item.timestamp.value > w.to.value)
  }

  predicate BelowWindow(w: Window, item: Item) {
    w.from.Some? && (item.timestamp.None? || item.timestamp.value < w.from.value)
  }

  predicate InWindow(w: Window, item: Item) {
    !AboveWindow(w, item) && !BelowWindow(w, item)
  }

  /** The item that makes the page loop stop: dated, not above the window, and below it. */
  predicate HitsLowerBound(w: Window, item: Item) {
    !AboveWindow(w, item) && BelowWindow(w, item) && item.timestamp.Some?
  }

  function Flow(item: Item, direction: Direction, pageIndex: nat, itemIndex: nat): FlowTransfer {
    var other := if direction == IN then item.sender else item.receiver;
    var hash := if item.hash.Some? then item.hash.value else "unknown";
    FlowTransfer(
      Or(item.uniqueId, hash + ":" + Str(pageIndex) + ":" + Str(itemIndex)), direction, Lower(Or(other, ZERO_ADDRESS)),
      Or(item.hash, "unknown"), item.block, item.timestamp, Or(item.asset, "UNKNOWN"), Or(item.category, "unknown"),
      item.value, item.contract, item.tokenId)
  }

  lemma LastColon(a: string, x: nat, b: string, y: nat)
    requires a + ":" + Str(x) == b + ":" + Str(y)
    ensures x == y
  {
    hide ToText;
    ReadBack(x, 10);
    ReadBack(y, 10);
    NoEarlierColon(a, Str(x), b, Str(y));
    NoEarlierColon(b, Str(y), a, Str(x));
    var s := a + ":" + Str(x);
    assert s[|a| + 1..] == Str(x) && s[|b| + 1..] == Str(y);
  }

  lemma NoEarlierColon(a: string, x: string, b: string, y: string)
    requires AllDigits(x, 10) && a + ":" + x == b + ":" + y
    ensures |a| >= |b|
  {
    var s := a + ":" + x;
    assert s[|b|] == ':' && !IsDigit(':', 10);
    forall k | |a| < k < |s| ensures IsDigit(s[k], 10) {
      assert s[k] == x[k - |a| - 1];
    }
  }

  /** Ids made up for items without one differ between any two places of an acquisition. */
  lemma MadeUpIdsDiffer(v: Item, w: Item, direction: Direction, page: nat, k: nat, otherPage: nat, otherK: nat)
    requires (v.uniqueId.None? || v.uniqueId.value == "") && (w.uniqueId.None? || w.uniqueId.value == "")
    requires Flow(v, direction, page, k).transferId == Flow(w, direction, otherPage, otherK).transferId
    ensures page == otherPage && k == otherK
  {
    var g, h := if v.hash.Some? then v.hash.value else "unknown", if w.hash.Some? then w.hash.value else "unknown";
    var a, b := g + ":" + Str(page), h + ":" + Str(otherPage);
    LastColon(a, k, b, otherK);
    var s, t := a + ":" + Str(k), b + ":" + Str(otherK);
    assert s[..|s| - 1 - |Str(k)|] == a && t[..|t| - 1 - |Str(k)|] == b;
    LastColon(g, page, h, otherPage);
  }

  // ---- the specification: follow the cursor, filter, take ----

  predicate HasNext(p: Page) {
    p.pageKey.Some? && p.pageKey.value != ""
  }

  /** The first `n` pages reached by following the cursor from `key`, up to a failing request. */
  function Chain(src: Source, key: Option<string>, n: nat): (pages: seq<Page>)
    ensures |pages| <= n
    decreases n
  {
    if n == 0 || src(key).None? then []
    else
      var p := src(key).value;
      [p] + (if HasNext(p) then Chain(src, p.pageKey, n - 1) else [])
  }

  /** Following the cursor runs into a failing request within `n` pages. */
  predicate Broken(src: Source, key: Option<string>, n: nat)
    decreases n
  {
    n > 0 && (src(key).None? || (HasNext(src(key).value) && Broken(src, src(key).value.pageKey, n - 1)))
  }

  function PageFlow(items: seq<Item>, w: Window, direction: Direction, pageIndex: nat): seq<FlowTransfer> {
    if items == [] then []
    else
      var k := |items| - 1;
      PageFlow(items[..k], w, direction, pageIndex)
      + (if InWindow(w, items[k]) then [Flow(items[k], direction, pageIndex, k)] else [])
  }

  /** The in-window transfers of some pages, the first of which has index `start`. */
  function Flows(pages: seq<Page>, w: Window, direction: Direction, start: nat): seq<FlowTransfer> {
    if pages == [] then []
    else PageFlow(pages[0].items, w, direction, start) + Flows(pages[1..], w, direction, start + 1)
  }

  predicate Reaches(w: Window, items: seq<Item>) {
    exists item <- items :: HitsLowerBound(w, item)
  }

  predicate Stops(w: Window, p: Page) {
    Reaches(w, p.items)
  }

  lemma ReachesSnoc(w: Window, items: seq<Item>, last: Item)
    ensures Reaches(w, items + [last]) <==> Reaches(w, items) || HitsLowerBound(w, last)
  {
    if Reaches(w, items) {
      var item :| item in items && HitsLowerBound(w, item);
      assert item in items + [last];
    }
    assert last in items + [last];
  }

  /** The pages up to and including the first that reaches below the window. */
  function UpToLowerBound(w: Window, pages: seq<Page>): seq<Page> {
    if pages == [] then [] else if Stops(w, pages[0]) then [pages[0]] else [pages[0]] + UpToLowerBound(w, pages[1..])
  }

  lemma {:induction false} FlowsConcat(a: seq<Page>, b: seq<Page>, w: Window, direction: Direction, start: nat)
    ensures Flows(a + b, w, direction, start) == Flows(a, w, direction, start) + Flows(b, w, direction, start + |a|)
  {
    if a == [] {
      assert a + b == b;
    } else {
      assert (a + b)[1..] == a[1..] + b;
      FlowsConcat(a[1..], b, w, direction, start + 1);
    }
  }

  lemma {:induction false} UpToSplits(w: Window, pages: seq<Page>)
    ensures var u := UpToLowerBound(w, pages);
      && |u| <= |pages| && u == pages[..|u|]
      && (u == pages || (u != [] && Stops(w, u[|u| - 1])))
  {
    if pages != [] && !Stops(w, pages[0]) {
      UpToSplits(w, pages[1..]);
    }
  }

  lemma {:induction false} UpToConcat(w: Window, a: seq<Page>, b: seq<Page>)
    requires forall p <- a :: !Stops(w, p)
    ensures UpToLowerBound(w, a + b) == a + UpToLowerBound(w, b)
  {
    if a == [] {
      assert a + b == b;
    } else {
      assert (a + b)[1..] == a[1..] + b;
      UpToConcat(w, a[1..], b);
    }
  }

  function AtLeastOne(n: int): nat {
    if n < 1 then 1 else n
  }

  /** Filter-then-take over the pages the loop reads. */
  function Wanted(src: Source, w: Window, direction: Direction, limit: int, maxPages: int): seq<FlowTransfer> {
    Take(Flows(UpToLowerBound(w, Chain(src, None, AtLeastOne(maxPages))), w, direction, 0), AtLeastOne(limit))
  }

  /** A request fails before the limit or the lower bound has been reached. */
  ghost predicate RunsIntoFailure(src: Source, w: Window, direction: Direction, limit: int, maxPages: int) {
    var pages := Chain(src, None, AtLeastOne(maxPages));
    && Broken(src, None, AtLeastOne(maxPages))
    && (forall p <- pages :: !Stops(w, p))
    && |Flows(pages, w, direction, 0)| < AtLeastOne(limit)
  }

  // ---- the implementation ----

  method ReadItems(items: seq<Item>, w: Window, direction: Direction, pageIndex: nat, limit: int,
                   sofar: seq<FlowTransfer>)
    returns (transfers: seq<FlowTransfer>, full: bool, reachedLowerBound: bool)
    requires |sofar| < AtLeastOne(limit)
    ensures transfers == Take(sofar + PageFlow(items, w, direction, pageIndex), AtLeastOne(limit))
    ensures full <==> |sofar + PageFlow(items, w, direction, pageIndex)| >= AtLeastOne(limit)
    ensures !full ==> (reachedLowerBound <==> Reaches(w, items))
  {
    hide Flow, Reaches, PageFlow, Take;
    transfers, full, reachedLowerBound := sofar, false, false;
    NoItems(w, direction, pageIndex);
    for k := 0 to |items|
      invariant transfers == sofar + PageFlow(items[..k], w, direction, pageIndex)
      invariant |transfers| < AtLeastOne(limit)
      invariant reachedLowerBound <==> Reaches(w, items[..k])
      invariant !full
    {
      var item := items[k];
      assert items[..k + 1] == items[..k] + [item] && items[..k + 1][..k] == items[..k];
      ReachesSnoc(w, items[..k], item);
      PageFlowSnoc(items[..k], item, w, direction, pageIndex);
      if AboveWindow(w, item) {
        continue;
      }
      if BelowWindow(w, item) {
        if item.timestamp.Some? {
          reachedLowerBound := true;
        }
        continue;
      }
      transfers := transfers + [Flow(item, direction, pageIndex, k)];
      if |transfers| >= limit {
        full := true;
        PageFlowPrefix(items, k + 1, w, direction, pageIndex);
        TakePrefix(sofar, PageFlow(items[..k + 1], w, direction, pageIndex), PageFlow(items, w, direction, pageIndex));
        return;
      }
    }
    assert items[..|items|] == items;
    TakeShort(transfers, AtLeastOne(limit));
  }

  lemma NoItems(w: Window, direction: Direction, pageIndex: nat)
    ensures PageFlow([], w, direction, pageIndex) == [] && !Reaches(w, [])
  {
  }

  lemma PageFlowSnoc(items: seq<Item>, last: Item, w: Window, direction: Direction, pageIndex: nat)
    ensures PageFlow(items + [last], w, direction, pageIndex)
         == PageFlow(items, w, direction, pageIndex)
            + (if InWindow(w, last) then [Flow(last, direction, pageIndex, |items|)] else [])
  {
    assert (items + [last])[..|items|] == items;
  }

  lemma TakePrefix(a: seq<FlowTransfer>, b: seq<FlowTransfer>, c: seq<FlowTransfer>)
    requires b <= c
    ensures Take(a + c, |a + b|) == a + b
  {
    assert c == b + c[|b|..];
    assert a + c == (a + b) + c[|b|..];
  }

  lemma {:induction false} PageFlowPrefix(items: seq<Item>, k: nat, w: Window, direction: Direction, pageIndex: nat)
    requires k <= |items|
    ensures PageFlow(items[..k], w, direction, pageIndex) <= PageFlow(items, w, direction, pageIndex)
    decreases |items|
  {
    if k == |items| {
      assert items[..k] == items;
    } else {
      var init := items[..|items| - 1];
      assert init[..k] == items[..k];
      PageFlowPrefix(init, k, w, direction, pageIndex);
    }
  }

  /**
   The nested page and item loops compute filter-then-take, and fail exactly when a request fails
   before the limit or the lower bound has been reached.
   */
  method AcquirePages(src: Source, w: Window, direction: Direction, limit: int, maxPages: int)
    returns (r: Option<seq<FlowTransfer>>, fetched: nat)
    ensures r.Some? ==> r.value == Wanted(src, w, direction, limit, maxPages)
    ensures r.Some? ==> 1 <= fetched <= |Chain(src, None, AtLeastOne(maxPages))|
    ensures r.Some? && |r.value| < AtLeastOne(limit) ==>
      fetched == |UpToLowerBound(w, Chain(src, None, AtLeastOne(maxPages)))|
    ensures r.None? <==> RunsIntoFailure(src, w, direction, limit, maxPages)
  {
    hide Flows, PageFlow, UpToLowerBound, Reaches, Take, Chain, Broken;
    var pageCap := AtLeastOne(maxPages);
    ghost var all := Chain(src, None, pageCap);
    var transfers: seq<FlowTransfer> := [];
    var key: Option<string> := None;
    ghost var done: seq<Page> := [];
    fetched := 0;
    NoPages(w, direction);
    while fetched < pageCap
      invariant 0 <= fetched <= pageCap && |done| == fetched
      invariant all == done + Chain(src, key, pageCap - fetched)
      invariant Broken(src, None, pageCap) <==> Broken(src, key, pageCap - fetched)
      invariant forall p <- done :: !Stops(w, p)
      invariant transfers == Flows(done, w, direction, 0) && |transfers| < AtLeastOne(limit)
      invariant fetched == pageCap ==> 0 < pageCap
    {
      ChainStep(src, key, pageCap - fetched);
      var result := src(key);
      if result.None? {
        assert all == done;
        return None, fetched;
      }
      var page := result.value;
      ghost var before, rest := done, if HasNext(page) then Chain(src, page.pageKey, pageCap - fetched - 1) else [];
      assert all == before + ([page] + rest);
      OneMorePage(before, page, w, direction);
      var full, reachedLowerBound;
      transfers, full, reachedLowerBound := ReadItems(page.items, w, direction, fetched, limit, transfers);
      fetched := fetched + 1;
      if full {
        EnoughAlready(before, page, rest, w, direction, AtLeastOne(limit));
        return Some(transfers), fetched;
      }
      TakeShort(Flows(before + [page], w, direction, 0), AtLeastOne(limit));
      done := before + [page];
      assert all == done + rest;
      key := page.pageKey;
      if !HasNext(page) || reachedLowerBound {
        StopsHere(before, page, rest, w);
        assert page in all;
        return Some(transfers), fetched;
      }
    }
    ChainStep(src, key, 0);
    assert all == done;
    ReadsAll(done, w);
    TakeShort(transfers, AtLeastOne(limit));
    return Some(transfers), fetched;
  }

  lemma ChainStep(src: Source, key: Option<string>, n: nat)
    ensures n == 0 ==> Chain(src, key, n) == [] && !Broken(src, key, n)
    ensures n > 0 && src(key).None? ==> Chain(src, key, n) == [] && Broken(src, key, n)
    ensures n > 0 && src(key).Some? ==>
      var p := src(key).value;
      && Chain(src, key, n) == [p] + (if HasNext(p) then Chain(src, p.pageKey, n - 1) else [])
      && (Broken(src, key, n) <==> HasNext(p) && Broken(src, p.pageKey, n - 1))
  {
  }

  lemma NoPages(w: Window, direction: Direction)
    ensures Flows([], w, direction, 0) == []
  {
  }

  lemma TakeShort(s: seq<FlowTransfer>, n: nat)
    ensures |s| <= n ==> Take(s, n) == s
  {
  }

  lemma OneMorePage(before: seq<Page>, page: Page, w: Window, direction: Direction)
    ensures Flows(before + [page], w, direction, 0)
         == Flows(before, w, direction, 0) + PageFlow(page.items, w, direction, |before|)
  {
    FlowsConcat(before, [page], w, direction, 0);
    assert Flows([page], w, direction, |before|)
      == PageFlow(page.items, w, direction, |before|) + Flows([], w, direction, |before| + 1);
  }

  lemma ReadsAll(pages: seq<Page>, w: Window)
    requires forall p <- pages :: !Stops(w, p)
    ensures UpToLowerBound(w, pages) == pages
  {
    UpToConcat(w, pages, []);
    assert pages + [] == pages;
  }

  /** The loop ends with a page that reaches below the window or has no successor. */
  lemma StopsHere(before: seq<Page>, page: Page, rest: seq<Page>, w: Window)
    requires forall p <- before :: !Stops(w, p)
    requires Stops(w, page) || rest == []
    ensures UpToLowerBound(w, before + ([page] + rest)) == before + [page]
  {
    UpToConcat(w, before, [page] + rest);
    assert ([page] + rest)[1..] == rest;
  }

  /** Once the limit is reached within a page, later pages do not matter. */
  lemma EnoughAlready(before: seq<Page>, page: Page, rest: seq<Page>, w: Window, direction: Direction, limit: nat)
    requires forall p <- before :: !Stops(w, p)
    requires |Flows(before + [page], w, direction, 0)| >= limit
    ensures Take(Flows(before + [page], w, direction, 0), limit)
         == Take(Flows(UpToLowerBound(w, before + ([page] + rest)), w, direction, 0), limit)
    ensures |Flows(before + ([page] + rest), w, direction, 0)| >= limit
  {
    var u := UpToLowerBound(w, [page] + rest);
    UpToConcat(w, before, [page] + rest);
    assert ([page] + rest)[1..] == rest;
    var tail := if Stops(w, page) then [] else UpToLowerBound(w, rest);
    assert u == [page] + tail;
    assert before + u == (before + [page]) + tail;
    FlowsConcat(before + [page], tail, w, direction, 0);
    assert before + ([page] + rest) == (before + [page]) + rest;
    FlowsConcat(before + [page], rest, w, direction, 0);
  }

  // ---- why stopping at the lower bound is sound ----

  function AllItems(pages: seq<Page>): seq<Item> {
    if pages == [] then [] else pages[0].items + AllItems(pages[1..])
  }

  /** Timestamps do not increase; undated items may stand anywhere. */
  ghost predicate Descending(items: seq<Item>) {
    forall i, j :: 0 <= i < j < |items| && items[i].timestamp.Some? && items[j].timestamp.Some? ==>
      items[i].timestamp.value >= items[j].timestamp.value
  }

  lemma {:induction false} NothingInPage(items: seq<Item>, w: Window, direction: Direction, pageIndex: nat)
    requires forall item <- items :: !InWindow(w, item)
    ensures PageFlow(items, w, direction, pageIndex) == []
    decreases |items|
  {
    if items != [] {
      NothingInPage(items[..|items| - 1], w, direction, pageIndex);
      assert !InWindow(w, items[|items| - 1]);
    }
  }

  /** Some page goes below the window, and a later one still holds an item of the window. */
  ghost predicate ComesBack(pages: seq<Page>, w: Window) {
    exists i: nat, j: nat, a, b :: GoesBelow(pages, w, i, a) && IsWithin(pages, w, j, b) && i < j
  }

  predicate GoesBelow(pages: seq<Page>, w: Window, i: nat, a: Item) {
    i < |pages| && a in pages[i].items && HitsLowerBound(w, a)
  }

  predicate IsWithin(pages: seq<Page>, w: Window, j: nat, b: Item) {
    j < |pages| && b in pages[j].items && InWindow(w, b)
  }

  lemma {:induction false} SomethingInPage(items: seq<Item>, w: Window, direction: Direction, pageIndex: nat, b: Item)
    requires b in items && InWindow(w, b)
    ensures PageFlow(items, w, direction, pageIndex) != []
    decreases |items|
  {
    var init, last := items[..|items| - 1], items[|items| - 1];
    assert items == init + [last];
    if !InWindow(w, last) {
      SomethingInPage(init, w, direction, pageIndex, b);
    }
  }

  lemma {:induction false} SomethingInPages(pages: seq<Page>, w: Window, direction: Direction, start: nat, j: nat,
                                            b: Item)
    requires j < |pages| && b in pages[j].items && InWindow(w, b)
    ensures Flows(pages, w, direction, start) != []
  {
    if j == 0 {
      SomethingInPage(pages[0].items, w, direction, start, b);
    } else {
      SomethingInPages(pages[1..], w, direction, start + 1, j - 1, b);
    }
  }

  lemma {:induction false} NothingInPages(pages: seq<Page>, w: Window, direction: Direction, start: nat)
    requires forall j, b :: 0 <= j < |pages| && b in pages[j].items ==> !InWindow(w, b)
    ensures Flows(pages, w, direction, start) == []
  {
    if pages != [] {
      NothingInPage(pages[0].items, w, direction, start);
      NothingInPages(pages[1..], w, direction, start + 1);
    }
  }

  lemma {:induction false} ReadPagesDoNotStop(w: Window, pages: seq<Page>, i: nat)
    requires i < |UpToLowerBound(w, pages)| - 1
    ensures i < |pages| && !Stops(w, pages[i])
  {
    if i > 0 {
      ReadPagesDoNotStop(w, pages[1..], i - 1);
    }
  }

  /** What the pages beyond the early exit would have added is nothing exactly when no page comes back. */
  lemma SkippedPages(pages: seq<Page>, w: Window, direction: Direction)
    ensures var u := UpToLowerBound(w, pages);
      |u| <= |pages| && (Flows(pages[|u|..], w, direction, |u|) == [] <==> !ComesBack(pages, w))
  {
    hide Flows, UpToLowerBound, HitsLowerBound, InWindow;
    UpToSplits(w, pages);
    var u := UpToLowerBound(w, pages);
    var rest := pages[|u|..];
    if i: nat, j: nat, a, b :| GoesBelow(pages, w, i, a) && IsWithin(pages, w, j, b) && i < j {
      assert Stops(w, pages[i]);
      if j < |u| {
        ReadPagesDoNotStop(w, pages, i);
      }
      SomethingInPages(rest, w, direction, |u|, j - |u|, b);
    } else {
      forall j, b | 0 <= j < |rest| && b in rest[j].items ensures !InWindow(w, b) {
        var i := |u| - 1;
        assert Stops(w, pages[i]);
        var a :| a in pages[i].items && HitsLowerBound(w, a);
        assert GoesBelow(pages, w, i, a);
        assert b in pages[|u| + j].items;
        assert InWindow(w, b) ==> IsWithin(pages, w, |u| + j, b);
      }
      NothingInPages(rest, w, direction, |u|);
    }
  }

  /**
   In any order of timestamps: the early exit is harmless iff the limit was reached before it or no page
   comes back.
   */
  lemma EarlyExitHarmless(pages: seq<Page>, w: Window, direction: Direction, limit: nat)
    ensures var u := UpToLowerBound(w, pages);
      Take(Flows(u, w, direction, 0), limit) == Take(Flows(pages, w, direction, 0), limit) <==>
        |Flows(u, w, direction, 0)| >= limit || !ComesBack(pages, w)
    ensures Flows(UpToLowerBound(w, pages), w, direction, 0) == Flows(pages, w, direction, 0) <==> !ComesBack(pages, w)
  {
    hide Flows, UpToLowerBound, ComesBack;
    UpToSplits(w, pages);
    SkippedPages(pages, w, direction);
    var u := UpToLowerBound(w, pages);
    var a, b := Flows(u, w, direction, 0), Flows(pages[|u|..], w, direction, |u|);
    assert pages == u + pages[|u|..];
    FlowsConcat(u, pages[|u|..], w, direction, 0);
    if |a| >= limit {
      assert (a + b)[..limit] == a[..limit];
    } else if b == [] {
      assert a + b == a;
    } else {
      assert |Take(a, limit)| == |a| && |Take(a + b, limit)| > |a|;
    }
    assert a + b == a <==> b == [] by { assert |a + b| == |a| + |b|; }
  }

  lemma {:induction false} ItemOfPage(pages: seq<Page>, i: nat, a: Item) returns (x: nat)
    requires i < |pages| && a in pages[i].items
    ensures x < |AllItems(pages)| && AllItems(pages)[x] == a
    ensures |AllItems(pages[..i])| <= x < |AllItems(pages[..i])| + |pages[i].items|
  {
    if i == 0 {
      x :| 0 <= x < |pages[0].items| && pages[0].items[x] == a;
    } else {
      var y := ItemOfPage(pages[1..], i - 1, a);
      x := |pages[0].items| + y;
      assert pages[..i][1..] == pages[1..][..i - 1];
    }
  }

  lemma {:induction false} ItemsBefore(pages: seq<Page>, i: nat, j: nat)
    requires i < j <= |pages|
    ensures |AllItems(pages[..i])| + |pages[i].items| <= |AllItems(pages[..j])|
    decreases i
  {
    assert pages[..j][1..] == pages[1..][..j - 1];
    if i > 0 {
      assert pages[..i][1..] == pages[1..][..i - 1];
      ItemsBefore(pages[1..], i - 1, j - 1);
    }
  }

  lemma DescendingNeverComesBack(pages: seq<Page>, w: Window)
    requires Descending(AllItems(pages))
    ensures !ComesBack(pages, w)
  {
    hide AllItems;
    if i: nat, j: nat, a, b :| GoesBelow(pages, w, i, a) && IsWithin(pages, w, j, b) && i < j {
      var x := ItemOfPage(pages, i, a);
      var y := ItemOfPage(pages, j, b);
      ItemsBefore(pages, i, j);
      assert AllItems(pages)[x].timestamp.value >= AllItems(pages)[y].timestamp.value;
      assert false;
    }
  }

  /** With descending timestamps the pages after the lower bound hold nothing in the window. */
  lemma LowerBoundLosesNothing(pages: seq<Page>, w: Window, direction: Direction)
    requires Descending(AllItems(pages))
    ensures Flows(UpToLowerBound(w, pages), w, direction, 0) == Flows(pages, w, direction, 0)
  {
    hide Flows, UpToLowerBound;
    DescendingNeverComesBack(pages, w);
    EarlyExitHarmless(pages, w, direction, 0);
  }

  /** Without the ordering the early exit can lose an in-window transfer. */
  lemma UnorderedPagesLose(item: Item, direction: Direction)
    ensures var early, late := item.(timestamp := Some(5)), item.(timestamp := Some(20));
      var pages, w := [Page([early], Some("k")), Page([late], None)], Window(Some(10), None);
      && Flows(UpToLowerBound(w, pages), w, direction, 0) == []
      && Flows(pages, w, direction, 0) == [Flow(late, direction, 1, 0)]
  {
    var early, late := item.(timestamp := Some(5)), item.(timestamp := Some(20));
    var first, second, w := Page([early], Some("k")), Page([late], None), Window(Some(10), None);
    assert early in first.items && HitsLowerBound(w, early);
    assert [first, second][1..] == [second] && [second][1..] == [] && [first][1..] == [];
    assert PageFlow([early], w, direction, 0) == [] by { assert [early][..0] == []; }
    assert PageFlow([late], w, direction, 1) == [Flow(late, direction, 1, 0)] by { assert [late][..0] == []; }
    assert Flows([second], w, direction, 1) == PageFlow([late], w, direction, 1) + Flows([], w, direction, 2);
  }

  // ---- completeness ----

  /** Following the cursor comes to a page without successor within `n` pages. */
  predicate Ends(src: Source, key: Option<string>, n: nat)
    decreases n
  {
    n > 0 && src(key).Some? && (!HasNext(src(key).value) || Ends(src, src(key).value.pageKey, n - 1))
  }

  lemma {:induction false} ChainPrefix(src: Source, key: Option<string>, m: nat, n: nat)
    requires m <= n
    ensures Chain(src, key, m) <= Chain(src, key, n)
    ensures Ends(src, key, m) ==> Chain(src, key, n) == Chain(src, key, m)
    decreases m
  {
    hide Chain, Broken;
    ChainStep(src, key, m);
    ChainStep(src, key, n);
    if m > 0 && src(key).Some? && HasNext(src(key).value) {
      ChainPrefix(src, src(key).value.pageKey, m - 1, n - 1);
    }
  }

  lemma {:induction false} AllItemsConcat(a: seq<Page>, b: seq<Page>)
    ensures AllItems(a + b) == AllItems(a) + AllItems(b)
  {
    if a == [] {
      assert a + b == b;
    } else {
      assert (a + b)[1..] == a[1..] + b;
      AllItemsConcat(a[1..], b);
    }
  }

  lemma DescendingPrefix(a: seq<Item>, b: seq<Item>)
    requires Descending(a + b)
    ensures Descending(a)
  {
    assert forall i :: 0 <= i < |a| ==> (a + b)[i] == a[i];
  }

  /** None of the pages holds an item of the window. */
  ghost predicate Outside(pages: seq<Page>, w: Window) {
    forall j: nat, b :: !IsWithin(pages, w, j, b)
  }

  lemma NoFlowsOutside(pages: seq<Page>, w: Window, direction: Direction, start: nat)
    ensures Flows(pages, w, direction, start) == [] <==> Outside(pages, w)
  {
    hide Flows, InWindow;
    if j: nat, b :| IsWithin(pages, w, j, b) {
      SomethingInPages(pages, w, direction, start, j, b);
    } else {
      forall j, b | 0 <= j < |pages| && b in pages[j].items ensures !InWindow(w, b) {
        assert !IsWithin(pages, w, j, b);
      }
      NothingInPages(pages, w, direction, start);
    }
  }

  /**
   With fewer transfers than the limit and descending timestamps, the answer holds every in-window
   transfer of the service exactly when the pages beyond the page cap hold none.
   */
  lemma UntruncatedIsComplete(src: Source, w: Window, direction: Direction, limit: int, maxPages: int, n: nat)
    requires |Wanted(src, w, direction, limit, maxPages)| < AtLeastOne(limit)
    requires n >= AtLeastOne(maxPages) && Descending(AllItems(Chain(src, None, n)))
    ensures var m := |Chain(src, None, AtLeastOne(maxPages))|; var all := Chain(src, None, n);
      m <= |all| && (Wanted(src, w, direction, limit, maxPages) == Flows(all, w, direction, 0) <==>
                     Outside(all[m..], w))
  {
    hide Flows, AllItems, Descending, Chain, UpToLowerBound, Outside;
    var pages, all := Chain(src, None, AtLeastOne(maxPages)), Chain(src, None, n);
    ChainPrefix(src, None, AtLeastOne(maxPages), n);
    var rest := all[|pages|..];
    assert all == pages + rest;
    AllItemsConcat(pages, rest);
    DescendingPrefix(AllItems(pages), AllItems(rest));
    LowerBoundLosesNothing(pages, w, direction);
    FlowsConcat(pages, rest, w, direction, 0);
    NoFlowsOutside(rest, w, direction, |pages|);
    var a, b := Flows(pages, w, direction, 0), Flows(rest, w, direction, |pages|);
    assert a == a + b <==> b == [] by { assert |a + b| == |a| + |b|; }
  }

  /** The pages read suffice when the last of them has no cursor, or when one of them went below the window. */
  lemma NothingBeyond(src: Source, w: Window, m: nat, n: nat)
    requires m <= n && Descending(AllItems(Chain(src, None, n)))
    requires Ends(src, None, m) || exists p <- Chain(src, None, m) :: Stops(w, p)
    ensures var k := |Chain(src, None, m)|; k <= |Chain(src, None, n)| && Outside(Chain(src, None, n)[k..], w)
  {
    hide AllItems, Descending, Chain, Ends, HitsLowerBound, InWindow;
    var pages, all := Chain(src, None, m), Chain(src, None, n);
    ChainPrefix(src, None, m, n);
    if !Ends(src, None, m) {
      DescendingNeverComesBack(all, w);
      var p :| p in pages && Stops(w, p);
      var i: nat :| i < |pages| && pages[i] == p;
      var a :| a in p.items && HitsLowerBound(w, a);
      assert GoesBelow(all, w, i, a);
      forall j: nat, b ensures !IsWithin(all[|pages|..], w, j, b) {
        assert !IsWithin(all, w, |pages| + j, b);
      }
    }
  }

  // ---- the wallet-flow answer ----

  const DAY := 86400000000

  /** The pages a service gives to requests with one address in one field. */
  function Asking(service: Service, field: string, address: string, maxCount: int): Source {
    (key: Option<string>) => service(Request(field, address, maxCount, key))
  }

  /** `acquire`: the address is lower-cased, the direction picks the field, a window widens the page. */
  function SourceFor(service: Service, address: string, direction: Direction, limit: int, w: Window): Source {
    var field := if direction == IN then "toAddress" else "fromAddress";
    var maxCount := if w.from.Some? || w.to.Some? || limit > 1000 then 1000 else limit;
    Asking(service, field, Lower(address), maxCount)
  }

  /** The first day from its start, the last day to its end. */
  function DayWindow(fromDate: Option<int>, toDate: Option<int>): Window {
    Window(if fromDate.Some? then Some(fromDate.value * DAY) else None,
           if toDate.Some? then Some(toDate.value * DAY + DAY - 1) else None)
  }

  function PageCap(fromDate: Option<int>, toDate: Option<int>): nat {
    if fromDate.Some? || toDate.Some? then 10 else 1
  }

  datatype WalletFlow = WalletFlow(
    address: string, incoming: seq<FlowTransfer>, outgoing: seq<FlowTransfer>, truncated: bool, maxPages: nat)

  // ---- what the listed transfers are ----

  /** Dated on or after the first day and on or before the last one, as far as they are given. */
  predicate InDays(fromDate: Option<int>, toDate: Option<int>, item: Item) {
    && (fromDate.Some? ==> item.timestamp.Some? && fromDate.value * 86400000000 <= item.timestamp.value)
    && (toDate.Some? ==> item.timestamp.Some? && item.timestamp.value < (toDate.value + 1) * 86400000000)
  }

  lemma WindowOfDays(fromDate: Option<int>, toDate: Option<int>, item: Item)
    ensures InWindow(DayWindow(fromDate, toDate), item) <==> InDays(fromDate, toDate, item)
  {
  }

  predicate Given(v: Option<string>) {
    v.Some? && v.value != ""
  }

  /** The other party is the sender of an incoming and the receiver of an outgoing item, or nobody. */
  predicate IsCounterparty(party: string, item: Item, direction: Direction) {
    match direction
    case IN => party == if Given(item.sender) then Lower(item.sender.value) else "0x" + Repeat('0', 40)
    case OUT => party == if Given(item.receiver) then Lower(item.receiver.value) else "0x" + Repeat('0', 40)
  }

  /** `t` lists what the service said about `item`. */
  predicate ComesFrom(t: FlowTransfer, item: Item, direction: Direction) {
    && t.direction == direction && IsCounterparty(t.counterparty, item, direction)
    && (Given(item.uniqueId) ==> t.transferId == item.uniqueId.value)
    && t.txHash == (if Given(item.hash) then item.hash.value else "unknown")
    && t.asset == (if Given(item.asset) then item.asset.value else "UNKNOWN")
    && t.category == (if Given(item.category) then item.category.value else "unknown")
    && t.block == item.block && t.timestamp == item.timestamp && t.value == item.value
    && t.contract == item.contract && t.tokenId == item.tokenId
  }

  lemma {:induction false} PageFlowItems(items: seq<Item>, w: Window, direction: Direction, pageIndex: nat)
    ensures forall t <- PageFlow(items, w, direction, pageIndex) ::
      exists item :: item in items && InWindow(w, item) && ComesFrom(t, item, direction)
    ensures forall item <- items :: InWindow(w, item) ==>
      exists t :: t in PageFlow(items, w, direction, pageIndex) && ComesFrom(t, item, direction)
    decreases |items|
  {
    hide InWindow, Flow, ComesFrom;
    if items != [] {
      var k := |items| - 1;
      assert items == items[..k] + [items[k]];
      PageFlowItems(items[..k], w, direction, pageIndex);
      FlowComesFrom(items[k], direction, pageIndex, k);
      assert InWindow(w, items[k]) ==>
        Flow(items[k], direction, pageIndex, k) in PageFlow(items, w, direction, pageIndex);
    }
  }

  lemma FlowComesFrom(item: Item, direction: Direction, pageIndex: nat, k: nat)
    ensures ComesFrom(Flow(item, direction, pageIndex, k), item, direction)
  {
  }

  /** Listed is what stands in the window, and nothing else. */
  lemma {:induction false} FlowsItems(pages: seq<Page>, w: Window, direction: Direction, start: nat)
    ensures forall t <- Flows(pages, w, direction, start) ::
      exists item :: item in AllItems(pages) && InWindow(w, item) && ComesFrom(t, item, direction)
    ensures forall item <- AllItems(pages) :: InWindow(w, item) ==>
      exists t :: t in Flows(pages, w, direction, start) && ComesFrom(t, item, direction)
  {
    hide InWindow, ComesFrom, PageFlow;
    if pages != [] {
      PageFlowItems(pages[0].items, w, direction, start);
      FlowsItems(pages[1..], w, direction, start + 1);
    }
  }

  /** Every item received by, or sent by, the address that the request names in its field. */
  ghost predicate Honest(service: Service) {
    forall q: Request, item :: service(q).Some? && item in service(q).value.items ==>
      && (q.field == "toAddress" ==> IsAddress(item.receiver, q.address))
      && (q.field == "fromAddress" ==> IsAddress(item.sender, q.address))
  }

  predicate IsAddress(v: Option<string>, address: string) {
    v.Some? && Lower(v.value) == address
  }

  lemma {:induction false} ChainAsks(service: Service, field: string, address: string, maxCount: int,
                                     key: Option<string>, n: nat)
    requires Honest(service)
    ensures forall item <- AllItems(Chain(Asking(service, field, address, maxCount), key, n)) ::
      && (field == "toAddress" ==> IsAddress(item.receiver, address))
      && (field == "fromAddress" ==> IsAddress(item.sender, address))
    decreases n
  {
    hide IsAddress;
    var src := Asking(service, field, address, maxCount);
    if n > 0 && src(key).Some? {
      var p := src(key).value;
      assert src(key) == service(Request(field, address, maxCount, key));
      if HasNext(p) {
        ChainAsks(service, field, address, maxCount, p.pageKey, n - 1);
        assert Chain(src, key, n)[1..] == Chain(src, p.pageKey, n - 1);
      } else {
        assert Chain(src, key, n)[1..] == [];
      }
    }
  }

  /** Whatever is listed comes from an item of the pages read, in the window. */
  lemma WantedItems(src: Source, w: Window, direction: Direction, limit: int, maxPages: int)
    ensures forall t <- Wanted(src, w, direction, limit, maxPages) ::
      exists item :: item in AllItems(Chain(src, None, AtLeastOne(maxPages))) && InWindow(w, item)
        && ComesFrom(t, item, direction)
  {
    hide InWindow, ComesFrom, Flows, UpToLowerBound, Chain, AllItems;
    var pages := Chain(src, None, AtLeastOne(maxPages));
    var u := UpToLowerBound(w, pages);
    UpToSplits(w, pages);
    assert pages == u + pages[|u|..];
    AllItemsConcat(u, pages[|u|..]);
    FlowsItems(u, w, direction, 0);
    var all := Flows(u, w, direction, 0);
    assert forall t <- Take(all, AtLeastOne(limit)) :: t in all;
  }

  /** Incoming is what the address received, outgoing what it sent, on the days asked for. */
  ghost predicate ListsOnly(answer: seq<FlowTransfer>, direction: Direction, address: string,
                            fromDate: Option<int>, toDate: Option<int>)
  {
    forall t <- answer :: exists item: Item ::
      && IsAddress(if direction == IN then item.receiver else item.sender, address)
      && InDays(fromDate, toDate, item) && ComesFrom(t, item, direction)
  }

  lemma HonestAnswer(service: Service, address: string, maxCount: int, direction: Direction, limit: int, maxPages: int,
                     fromDate: Option<int>, toDate: Option<int>)
    requires Honest(service)
    ensures ListsOnly(Wanted(Asking(service, if direction == IN then "toAddress" else "fromAddress", address, maxCount),
                             DayWindow(fromDate, toDate), direction, limit, maxPages),
                      direction, address, fromDate, toDate)
  {
    hide InWindow, ComesFrom, Wanted, Chain, AllItems, DayWindow, InDays, IsAddress, Honest;
    var field := if direction == IN then "toAddress" else "fromAddress";
    var src, w := Asking(service, field, address, maxCount), DayWindow(fromDate, toDate);
    ChainAsks(service, field, address, maxCount, None, AtLeastOne(maxPages));
    WantedItems(src, w, direction, limit, maxPages);
    forall t | t in Wanted(src, w, direction, limit, maxPages)
      ensures exists item: Item ::
        && IsAddress(if direction == IN then item.receiver else item.sender, address)
        && InDays(fromDate, toDate, item) && ComesFrom(t, item, direction)
    {
      var item :| item in AllItems(Chain(src, None, AtLeastOne(maxPages))) && InWindow(w, item)
        && ComesFrom(t, item, direction);
      WindowOfDays(fromDate, toDate, item);
    }
  }

  lemma ItemInAll(pages: seq<Page>, j: nat, b: Item)
    requires j < |pages| && b in pages[j].items
    ensures b in AllItems(pages)
  {
    var x := ItemOfPage(pages, j, b);
    assert AllItems(pages)[x] == b;
  }

  /** A complete answer lists every item of the days asked for. */
  lemma CompleteListsAll(src: Source, direction: Direction, cap: nat, answer: seq<FlowTransfer>,
                         fromDate: Option<int>, toDate: Option<int>, n: nat, item: Item)
    requires CompleteUnlessBeyond(src, DayWindow(fromDate, toDate), direction, cap, answer)
    requires n >= cap && Descending(AllItems(Chain(src, None, n)))
    requires |Chain(src, None, cap)| <= |Chain(src, None, n)|
    requires forall later <- AllItems(Chain(src, None, n)[|Chain(src, None, cap)|..]) ::
      !InDays(fromDate, toDate, later)
    requires item in AllItems(Chain(src, None, n)) && InDays(fromDate, toDate, item)
    ensures exists t :: t in answer && ComesFrom(t, item, direction)
  {
    hide InWindow, ComesFrom, Chain, AllItems, DayWindow, InDays, Flows, Descending;
    var w, all := DayWindow(fromDate, toDate), Chain(src, None, n);
    var rest := all[|Chain(src, None, cap)|..];
    forall j: nat, b ensures !IsWithin(rest, w, j, b) {
      if j < |rest| && b in rest[j].items {
        ItemInAll(rest, j, b);
        WindowOfDays(fromDate, toDate, b);
      }
    }
    FlowsItems(all, w, direction, 0);
    WindowOfDays(fromDate, toDate, item);
  }

  /** Either an HTTP error code or the two directions, with `truncated` saying that one is full. */
  method AcquireWalletFlow(service: Service, configured: bool, chainId: int, address: string, limit: int,
                           fromDate: Option<int>, toDate: Option<int>)
    returns (r: Result<WalletFlow, nat>)
    ensures var invalid :=
        chainId != 1 || (fromDate.Some? && toDate.Some? && fromDate.value > toDate.value) || !IsHex(address, 40);
      var w, cap := DayWindow(fromDate, toDate), PageCap(fromDate, toDate);
      var maxCount := if fromDate.Some? || toDate.Some? || limit > 1000 then 1000 else limit;
      if invalid then r == Err(422)
      else if !configured then r == Err(503)
      else
        r == Err(502) <==>
          || RunsIntoFailure(Asking(service, "toAddress", Lower(address), maxCount), w, IN, limit, cap)
          || RunsIntoFailure(Asking(service, "fromAddress", Lower(address), maxCount), w, OUT, limit, cap)
    ensures r.Err? ==> r.error in {422, 502, 503}
    ensures r.Ok? ==>
      && var w, cap := DayWindow(fromDate, toDate), PageCap(fromDate, toDate);
      && var maxCount := if fromDate.Some? || toDate.Some? || limit > 1000 then 1000 else limit;
      && r.value.address == Lower(address)
      && r.value.maxPages == cap == (if fromDate.Some? || toDate.Some? then 10 else 1)
      && r.value.incoming == Wanted(Asking(service, "toAddress", Lower(address), maxCount), w, IN, limit, cap)
      && r.value.outgoing == Wanted(Asking(service, "fromAddress", Lower(address), maxCount), w, OUT, limit, cap)
      && (r.value.truncated <==> |r.value.incoming| == limit || |r.value.outgoing| == limit)
    ensures r.Ok? && Honest(service) ==>
      && ListsOnly(r.value.incoming, IN, Lower(address), fromDate, toDate)
      && ListsOnly(r.value.outgoing, OUT, Lower(address), fromDate, toDate)
    ensures r.Ok? && limit >= 1 && !r.value.truncated ==>
      var w, cap := DayWindow(fromDate, toDate), PageCap(fromDate, toDate);
      var maxCount := if fromDate.Some? || toDate.Some? || limit > 1000 then 1000 else limit;
      && CompleteUnlessBeyond(Asking(service, "toAddress", Lower(address), maxCount), w, IN, cap, r.value.incoming)
      && CompleteUnlessBeyond(Asking(service, "fromAddress", Lower(address), maxCount), w, OUT, cap, r.value.outgoing)
  {
    hide Chain, Broken, AllItems, Flows, UpToLowerBound, Descending, Wanted, Stops, IsHex, RunsIntoFailure, Outside,
      Honest, ListsOnly, CompleteUnlessBeyond, Asking;
    if chainId != 1 {
      return Err(422);
    }
    if fromDate.Some? && toDate.Some? && fromDate.value > toDate.value {
      return Err(422);
    }
    if !IsHex(address, 40) {
      return Err(422);
    }
    if !configured {
      return Err(503);
    }
    var w, cap := DayWindow(fromDate, toDate), PageCap(fromDate, toDate);
    var inSource, outSource := SourceFor(service, address, IN, limit, w), SourceFor(service, address, OUT, limit, w);
    var incoming, _ := AcquirePages(inSource, w, IN, limit, cap);
    var outgoing, _ := AcquirePages(outSource, w, OUT, limit, cap);
    if incoming.None? || outgoing.None? {
      return Err(502);
    }
    if Honest(service) {
      var maxCount := if fromDate.Some? || toDate.Some? || limit > 1000 then 1000 else limit;
      HonestAnswer(service, Lower(address), maxCount, IN, limit, cap, fromDate, toDate);
      HonestAnswer(service, Lower(address), maxCount, OUT, limit, cap, fromDate, toDate);
    }
    WantedFits(inSource, w, IN, limit, cap);
    WantedFits(outSource, w, OUT, limit, cap);
    if limit >= 1 && |incoming.value| < limit {
      BelowLimit(inSource, w, IN, limit, cap);
    }
    if limit >= 1 && |outgoing.value| < limit {
      BelowLimit(outSource, w, OUT, limit, cap);
    }
    return Ok(WalletFlow(Lower(address), incoming.value, outgoing.value,
                         |incoming.value| == limit || |outgoing.value| == limit, cap));
  }

  /** An answer to a service with descending timestamps holds everything unless pages beyond the cap hold more. */
  ghost predicate CompleteUnlessBeyond(src: Source, w: Window, direction: Direction, cap: nat,
                                       answer: seq<FlowTransfer>)
  {
    forall n: nat :: n >= cap && Descending(AllItems(Chain(src, None, n))) ==>
      |Chain(src, None, cap)| <= |Chain(src, None, n)| &&
      (answer == Flows(Chain(src, None, n), w, direction, 0) <==>
        Outside(Chain(src, None, n)[|Chain(src, None, cap)|..], w))
  }

  lemma BelowLimit(src: Source, w: Window, direction: Direction, limit: int, cap: nat)
    requires cap >= 1 && |Wanted(src, w, direction, limit, cap)| < AtLeastOne(limit)
    ensures CompleteUnlessBeyond(src, w, direction, cap, Wanted(src, w, direction, limit, cap))
  {
    hide Chain, AllItems, Flows, Descending, Wanted, Outside;
    forall n: nat | n >= cap && Descending(AllItems(Chain(src, None, n)))
      ensures |Chain(src, None, cap)| <= |Chain(src, None, n)|
      ensures Wanted(src, w, direction, limit, cap) == Flows(Chain(src, None, n), w, direction, 0) <==>
        Outside(Chain(src, None, n)[|Chain(src, None, cap)|..], w)
    {
      UntruncatedIsComplete(src, w, direction, limit, cap, n);
    }
  }

  lemma WantedFits(src: Source, w: Window, direction: Direction, limit: int, maxPages: int)
    ensures |Wanted(src, w, direction, limit, maxPages)| <= AtLeastOne(limit)
  {
    hide Flows, UpToLowerBound, Chain;
  }
}

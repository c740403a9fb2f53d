/** The value-level rules of one sweep of the auction feed (bot.py): which
    listings are sampled and what each page records, the lower-median floor
    price, the listing window, the flip test and the sampling counter. The
    class in grabber.dfy runs these rules step by step. */
module Sweep {
  import opened Util
  import opened ItemNames

  /** One auction as the feed reports it, with its item payload already
      decoded. `bin` is None when the listing has no `bin` field. Times are
      epoch milliseconds. */
  datatype Listing = Listing(
    uuid: string,
    item: Item,
    startingBid: int,
    highestBid: int,
    start: int,
    end: int,
    bin: Option<bool>)

  /** A price history: canonical key to the samples recorded for it. */
  type History = map<string, seq<real>>

  predicate NonEmptyHistories(h: History) {
    forall k :: k in h ==> |h[k]| > 0
  }

  /** The samples of `k`, empty when `k` has none (a `defaultdict(list)` read). */
  function HistoryOf(h: History, k: string): (r: seq<real>) {
    if k in h then h[k] else []
  }

  /** Two histories with the same keys and the same samples per key are equal. */
  lemma HistoryExt(a: History, b: History)
    requires forall k :: k in a <==> k in b
    requires forall k :: HistoryOf(a, k) == HistoryOf(b, k)
    ensures a == b
  {
    assert forall k | k in a :: a[k] == HistoryOf(a, k) == HistoryOf(b, k) == b[k];
  }

  /** Two floor tables with the same keys and the same values are equal. */
  lemma FloorsExt(a: map<string, real>, b: map<string, real>)
    requires forall k :: k in a <==> k in b
    requires forall k :: k in a ==> a[k] == b[k]
    ensures a == b
  {
  }

  function KeyOf(l: Listing): (r: string) {
    CanonicalName(l.item)
  }

  // ---------------------------------------------------------------------------
  // Sampling a page

  /** A listing is sampled when it is buy-it-now and has not ended at `now`
      (seconds). */
  predicate Sampled(l: Listing, now: real) {
    l.bin == Some(true) && !(l.end as real < now * 1000.0)
  }

  /** The price of one item of the stack. */
  function UnitPrice(l: Listing): (r: real) {
    l.startingBid as real / l.item.count as real
  }

  /** The page's unit prices grouped by key, in listing order. */
  function PagePrices(page: seq<Listing>, now: real): (r: History)
    ensures NonEmptyHistories(r)
    decreases |page|
  {
    if page == [] then map[]
    else
      var before := PagePrices(page[..|page| - 1], now);
      var l := page[|page| - 1];
      if Sampled(l, now) then before[KeyOf(l) := HistoryOf(before, KeyOf(l)) + [UnitPrice(l)]]
      else before
  }

  /** Grouping a page extended by one listing. */
  lemma PagePricesSnoc(page: seq<Listing>, l: Listing, now: real)
    ensures PagePrices(page + [l], now)
            == if Sampled(l, now) then PagePrices(page, now)[KeyOf(l) := HistoryOf(PagePrices(page, now), KeyOf(l)) + [UnitPrice(l)]]
               else PagePrices(page, now)
  {
    assert (page + [l])[..|page + [l]| - 1] == page;
  }

  /** Sampling history extended by one page. */
  lemma SweepHistorySnoc(h: History, pages: seq<seq<Listing>>, page: seq<Listing>, now: real)
    requires NonEmptyHistories(h)
    ensures SweepHistory(h, pages + [page], now) == AppendMinima(SweepHistory(h, pages, now), PagePrices(page, now))
  {
    assert (pages + [page])[..|pages + [page]| - 1] == pages;
  }

  /** The kept listings of pages extended by one page. */
  lemma KeptAllSnoc(pages: seq<seq<Listing>>, page: seq<Listing>, lastUpdate: int, now: real, minTime: real)
    ensures KeptAll(pages + [page], lastUpdate, now, minTime)
            == KeptAll(pages, lastUpdate, now, minTime) + KeptOnPage(page, lastUpdate, now, minTime)
  {
    assert (pages + [page])[..|pages + [page]| - 1] == pages;
  }

  /** Processing page `i` after the pages before it: its kept listings are
      appended, and on a sampling sweep its minima are appended. */
  lemma GatherStep(h: History, pages: seq<seq<Listing>>, i: nat, lastUpdate: int, now: real, minTime: real)
    requires NonEmptyHistories(h) && i < |pages|
    ensures KeptAll(pages[..i + 1], lastUpdate, now, minTime)
            == KeptAll(pages[..i], lastUpdate, now, minTime) + KeptOnPage(pages[i], lastUpdate, now, minTime)
    ensures SweepHistory(h, pages[..i + 1], now) == AppendMinima(SweepHistory(h, pages[..i], now), PagePrices(pages[i], now))
  {
    assert pages[..i + 1] == pages[..i] + [pages[i]];
    KeptAllSnoc(pages[..i], pages[i], lastUpdate, now, minTime);
    SweepHistorySnoc(h, pages[..i], pages[i], now);
  }

  /** A key is grouped on a page exactly when a sampled listing of the page has
      that key. */
  lemma {:induction false} PagePricesKeys(page: seq<Listing>, now: real, k: string)
    ensures k in PagePrices(page, now) <==>
              exists i :: 0 <= i < |page| && Sampled(page[i], now) && KeyOf(page[i]) == k
    decreases |page|
  {
    if page != [] {
      var init := page[..|page| - 1];
      PagePricesKeys(init, now, k);
      assert forall i :: 0 <= i < |init| ==> init[i] == page[i];
    }
  }

  /** Every sampled listing's unit price is in its key's group. */
  lemma {:induction false} PagePricesRecorded(page: seq<Listing>, now: real, k: string)
    ensures forall i :: 0 <= i < |page| && Sampled(page[i], now) && KeyOf(page[i]) == k ==>
              UnitPrice(page[i]) in HistoryOf(PagePrices(page, now), k)
    decreases |page|
  {
    if page != [] {
      var init := page[..|page| - 1];
      PagePricesRecorded(init, now, k);
      assert forall i :: 0 <= i < |init| ==> init[i] == page[i];
    }
  }

  /** Every value in a key's group is the unit price of a sampled listing with
      that key. */
  lemma {:induction false} PagePricesSources(page: seq<Listing>, now: real, k: string)
    ensures forall x :: x in HistoryOf(PagePrices(page, now), k) ==>
              exists i :: 0 <= i < |page| && Sampled(page[i], now) && KeyOf(page[i]) == k && UnitPrice(page[i]) == x
    decreases |page|
  {
    if page != [] {
      var init := page[..|page| - 1];
      var l := page[|page| - 1];
      PagePricesSources(init, now, k);
      forall x | x in HistoryOf(PagePrices(page, now), k)
        ensures exists i :: 0 <= i < |page| && Sampled(page[i], now) && KeyOf(page[i]) == k && UnitPrice(page[i]) == x
      {
        if x in HistoryOf(PagePrices(init, now), k) {
          var i :| 0 <= i < |init| && Sampled(init[i], now) && KeyOf(init[i]) == k && UnitPrice(init[i]) == x;
          assert page[i] == init[i];
        } else {
          assert Sampled(l, now) && KeyOf(l) == k && UnitPrice(l) == x;
        }
      }
    }
  }

  /** The value a page records for a key is the lowest unit price among the
      page's sampled listings with that key. */
  lemma PageFloor(page: seq<Listing>, now: real, k: string)
    requires k in PagePrices(page, now)
    ensures forall i :: 0 <= i < |page| && Sampled(page[i], now) && KeyOf(page[i]) == k ==>
              Min(PagePrices(page, now)[k]) <= UnitPrice(page[i])
    ensures exists i :: 0 <= i < |page| && Sampled(page[i], now) && KeyOf(page[i]) == k
              && UnitPrice(page[i]) == Min(PagePrices(page, now)[k])
  {
    PagePricesRecorded(page, now, k);
    PagePricesSources(page, now, k);
  }

  /** Appends the page minimum of every grouped key to its history. */
  function AppendMinima(h: History, grouped: History): (r: History)
    requires NonEmptyHistories(grouped)
    ensures NonEmptyHistories(h) ==> NonEmptyHistories(r)
  {
    map k | k in h.Keys + grouped.Keys :: HistoryOf(h, k) + (if k in grouped then [Min(grouped[k])] else [])
  }

  /** A key has a history afterwards exactly when it had one or the page
      grouped it, and its history gains the page minimum exactly when the page
      grouped it; nothing recorded is lost or rewritten. */
  lemma AppendMinimaSpec(h: History, grouped: History)
    requires NonEmptyHistories(grouped)
    ensures forall k :: k in AppendMinima(h, grouped) <==> k in h || k in grouped
    ensures forall k :: HistoryOf(AppendMinima(h, grouped), k)
                        == HistoryOf(h, k) + (if k in grouped then [Min(grouped[k])] else [])
  {
  }

  /** A history whose keys are the old keys and the grouped ones, each grouped
      key having gained its page minimum and every other history unchanged, is
      the appended history. */
  lemma AppendMinimaExt(acc: History, h: History, grouped: History)
    requires NonEmptyHistories(grouped)
    requires forall k :: k in acc <==> k in h || k in grouped
    requires forall k :: HistoryOf(acc, k) == HistoryOf(h, k) + (if k in grouped then [Min(grouped[k])] else [])
    ensures acc == AppendMinima(h, grouped)
  {
    AppendMinimaSpec(h, grouped);
    HistoryExt(acc, AppendMinima(h, grouped));
  }

  /** The history after the given pages were sampled in order. */
  function SweepHistory(h: History, pages: seq<seq<Listing>>, now: real): (r: History)
    requires NonEmptyHistories(h)
    ensures NonEmptyHistories(r)
    decreases |pages|
  {
    if pages == [] then h
    else AppendMinima(SweepHistory(h, pages[..|pages| - 1], now), PagePrices(pages[|pages| - 1], now))
  }

  /** How many of the pages have a sampled listing with key `k`. */
  function PagesObserving(pages: seq<seq<Listing>>, k: string, now: real): (r: nat)
    decreases |pages|
  {
    if pages == [] then 0
    else PagesObserving(pages[..|pages| - 1], k, now) + (if k in PagePrices(pages[|pages| - 1], now) then 1 else 0)
  }

  /** Sampling never removes or rewrites a recorded sample, and each page adds
      exactly one sample to each key it observes. */
  lemma {:induction false} SweepHistoryGrows(h: History, pages: seq<seq<Listing>>, now: real, k: string)
    requires NonEmptyHistories(h)
    ensures HistoryOf(h, k) <= HistoryOf(SweepHistory(h, pages, now), k)
    ensures |HistoryOf(SweepHistory(h, pages, now), k)| == |HistoryOf(h, k)| + PagesObserving(pages, k, now)
    decreases |pages|
  {
    if pages != [] {
      SweepHistoryGrows(h, pages[..|pages| - 1], now, k);
      AppendMinimaSpec(SweepHistory(h, pages[..|pages| - 1], now), PagePrices(pages[|pages| - 1], now));
    }
  }

  /** The page minimum one page records for `k`, if it groups `k`. */
  function PageMinimum(k: string, now: real): (r: seq<Listing> -> seq<real>) {
    page => var g := PagePrices(page, now); if k in g then [Min(g[k])] else []
  }

  /** The page minima a key receives from the given pages, in page order. */
  function PageMinima(pages: seq<seq<Listing>>, k: string, now: real): (r: seq<real>) {
    FlatMap(pages, PageMinimum(k, now))
  }

  /** What the last page adds to a key: its page minimum, if it groups the key. */
  function LastPageAdds(pages: seq<seq<Listing>>, k: string, now: real): (r: seq<real>)
    requires pages != []
  {
    PageMinimum(k, now)(pages[|pages| - 1])
  }

  lemma PageMinimaStep(pages: seq<seq<Listing>>, k: string, now: real)
    requires pages != []
    ensures PageMinima(pages, k, now) == PageMinima(pages[..|pages| - 1], k, now) + LastPageAdds(pages, k, now)
  {
  }

  lemma SweepHistoryStep(h: History, pages: seq<seq<Listing>>, now: real, k: string)
    requires NonEmptyHistories(h) && pages != []
    ensures HistoryOf(SweepHistory(h, pages, now), k)
            == HistoryOf(SweepHistory(h, pages[..|pages| - 1], now), k) + LastPageAdds(pages, k, now)
  {
    AppendMinimaSpec(SweepHistory(h, pages[..|pages| - 1], now), PagePrices(pages[|pages| - 1], now));
  }

  /** A sweep appends to each key's history exactly the page minima of that key. */
  lemma {:induction false} SweepHistoryMinima(h: History, pages: seq<seq<Listing>>, now: real, k: string)
    requires NonEmptyHistories(h)
    ensures HistoryOf(SweepHistory(h, pages, now), k) == HistoryOf(h, k) + PageMinima(pages, k, now)
    decreases |pages|
  {
    if pages != [] {
      SweepHistoryMinima(h, pages[..|pages| - 1], now, k);
      PageMinimaStep(pages, k, now);
      SweepHistoryStep(h, pages, now, k);
    }
  }

  /** Processing the same pages in any order leaves every key with the same
      samples (as a multiset), hence the same set of keys with a history and,
      by `LowerMedianPermutation`, the same floors. */
  lemma PageOrderIrrelevant(h: History, p: seq<seq<Listing>>, q: seq<seq<Listing>>, now: real, k: string)
    requires NonEmptyHistories(h) && multiset(p) == multiset(q)
    ensures multiset(HistoryOf(SweepHistory(h, p, now), k)) == multiset(HistoryOf(SweepHistory(h, q, now), k))
    ensures k in SweepHistory(h, p, now) <==> k in SweepHistory(h, q, now)
    ensures k in SweepHistory(h, p, now) ==>
              LowerMedian(SweepHistory(h, p, now)[k]) == LowerMedian(SweepHistory(h, q, now)[k])
  {
    SweepHistoryMinima(h, p, now, k);
    SweepHistoryMinima(h, q, now, k);
    FlatMapPermutation(p, q, PageMinimum(k, now));
    var hp := HistoryOf(SweepHistory(h, p, now), k);
    var hq := HistoryOf(SweepHistory(h, q, now), k);
    assert |hp| == |multiset(hp)| == |multiset(hq)| == |hq|;
    if k in SweepHistory(h, p, now) {
      LowerMedianPermutation(hp, hq);
    }
  }

  // ---------------------------------------------------------------------------
  // Floor price

  /** How many of the smallest samples the floor looks at. */
  const FLOOR_SAMPLES: nat := 5

  /** The source's index expression `n // 2 - (0 if n % 2 == 1 else 1)`. */
  function LowerMedianIndex(n: nat): (i: nat)
    requires n >= 1
    ensures i == (n - 1) / 2
  {
    n / 2 - (if n % 2 == 1 then 0 else 1)
  }

  /** The lower median of the (at most) five smallest samples. */
  function LowerMedian(samples: seq<real>): (r: real)
    requires |samples| > 0
  {
    var sorted := SortedCopy(samples);
    assert |sorted| == |multiset(sorted)| == |samples|;
    var smallest := sorted[..Smaller(|samples|, FLOOR_SAMPLES)];
    smallest[LowerMedianIndex(|smallest|)]
  }

  /** The floor is the element at index (m - 1) / 2 of the sorted samples,
      where m is the number of samples capped at five. */
  lemma LowerMedianAt(samples: seq<real>) returns (k: nat)
    requires |samples| > 0
    ensures k == (Smaller(|samples|, FLOOR_SAMPLES) - 1) / 2
    ensures k < |SortedCopy(samples)| && LowerMedian(samples) == SortedCopy(samples)[k]
  {
    var sorted := SortedCopy(samples);
    assert |sorted| == |multiset(sorted)| == |samples|;
    k := (Smaller(|samples|, FLOOR_SAMPLES) - 1) / 2;
  }

  /** The floor is one of the recorded samples and never below the lowest one. */
  lemma LowerMedianIsSample(samples: seq<real>)
    requires |samples| > 0
    ensures LowerMedian(samples) in samples
    ensures Min(samples) <= LowerMedian(samples)
  {
    var sorted := SortedCopy(samples);
    var k := LowerMedianAt(samples);
    var m := LowerMedian(samples);
    assert m in multiset(sorted) by {
      assert sorted[k] in sorted;
    }
    assert m in multiset(samples);
    assert m in samples;
    assert Min(samples) <= m;
  }

  /** The floor has rank (m - 1) / 2 among the samples, where m is the number
      of samples capped at five: at most that many samples lie strictly below
      it and more than that many lie at or below it. With five or more samples
      it is the third smallest. */
  lemma LowerMedianRank(samples: seq<real>)
    requires |samples| > 0
    ensures var k := (Smaller(|samples|, FLOOR_SAMPLES) - 1) / 2;
            CountBelow(samples, LowerMedian(samples)) <= k < CountAtMost(samples, LowerMedian(samples))
    ensures |samples| >= FLOOR_SAMPLES ==>
              CountBelow(samples, LowerMedian(samples)) <= 2 < CountAtMost(samples, LowerMedian(samples))
  {
    var sorted := SortedCopy(samples);
    var k := LowerMedianAt(samples);
    SortedRank(sorted, k);
    CountsSortedCopy(samples, sorted[k]);
  }

  /** The floor depends only on which samples were recorded, not on their order
      (pages append in whichever order their fetches complete). */
  lemma LowerMedianPermutation(a: seq<real>, b: seq<real>)
    requires |a| > 0 && multiset(a) == multiset(b)
    ensures |b| > 0 && LowerMedian(a) == LowerMedian(b)
  {
    assert |a| == |multiset(a)| == |multiset(b)| == |b|;
    SortedUnique(SortedCopy(a), SortedCopy(b));
  }

  const RECOMBOBULATOR: string := "RECOMBOBULATOR_3000"

  /** The floor table after a sampling sweep: the recombobulator is seeded from
      the bazaar price, then every key with a history gets its lower median. */
  function Refresh(floors: map<string, real>, h: History, bazaar: real): (r: map<string, real>)
    requires NonEmptyHistories(h)
  {
    var seeded := floors[RECOMBOBULATOR := bazaar];
    map k | k in seeded.Keys + h.Keys :: if k in h then LowerMedian(h[k]) else seeded[k]
  }

  /** After a refresh the recombobulator and every key with a history have a
      floor; a key with a history has its lower median, the recombobulator
      without a history has the bazaar price, and every other floor is kept. */
  lemma RefreshSpec(floors: map<string, real>, h: History, bazaar: real)
    requires NonEmptyHistories(h)
    ensures forall k :: k in Refresh(floors, h, bazaar) <==> k in floors || k in h || k == RECOMBOBULATOR
    ensures forall k :: k in h ==> Refresh(floors, h, bazaar)[k] == LowerMedian(h[k])
    ensures RECOMBOBULATOR !in h ==> Refresh(floors, h, bazaar)[RECOMBOBULATOR] == bazaar
    ensures forall k :: k in floors && k !in h && k != RECOMBOBULATOR ==> Refresh(floors, h, bazaar)[k] == floors[k]
  {
  }

  /** A table that has a floor for exactly the seeded keys and the keys with a
      history, holding the lower median for the latter and the seeded value for
      the rest, is the refreshed table. */
  lemma RefreshExt(floors: map<string, real>, before: map<string, real>, h: History, bazaar: real)
    requires NonEmptyHistories(h)
    requires forall k :: k in floors <==> k in before[RECOMBOBULATOR := bazaar] || k in h
    requires forall k :: k in floors ==>
               floors[k] == if k in h then LowerMedian(h[k]) else before[RECOMBOBULATOR := bazaar][k]
    ensures floors == Refresh(before, h, bazaar)
  {
    RefreshSpec(before, h, bazaar);
    FloorsExt(floors, Refresh(before, h, bazaar));
  }

  /** After a refresh every key with a history has a floor that is one of its
      recorded samples and is not below the lowest of them. */
  lemma RefreshFromSamples(floors: map<string, real>, h: History, bazaar: real, k: string)
    requires NonEmptyHistories(h) && k in h
    ensures k in Refresh(floors, h, bazaar)
    ensures Refresh(floors, h, bazaar)[k] in h[k]
    ensures Min(h[k]) <= Refresh(floors, h, bazaar)[k]
  {
    RefreshSpec(floors, h, bazaar);
    LowerMedianIsSample(h[k]);
  }

  // ---------------------------------------------------------------------------
  // Listing window and flips

  /** A listing is kept for flip checking when it started after the previous
      feed update and ends more than 30 seconds from now but before `minTime`
      seconds from now. */
  predicate InWindow(l: Listing, lastUpdate: int, now: real, minTime: real) {
    l.start > lastUpdate && (now + 30.0) * 1000.0 < l.end as real < (now + minTime) * 1000.0
  }

  function WindowTest(lastUpdate: int, now: real, minTime: real): (r: Listing -> bool) {
    l => InWindow(l, lastUpdate, now, minTime)
  }

  /** The listings of one page that lie in the window, in page order. */
  function KeptOnPage(page: seq<Listing>, lastUpdate: int, now: real, minTime: real): (r: seq<Listing>) {
    Filter(page, WindowTest(lastUpdate, now, minTime))
  }

  /** A page keeps exactly its listings that lie in the window. */
  lemma KeptOnPageMembers(page: seq<Listing>, lastUpdate: int, now: real, minTime: real)
    ensures forall l :: l in KeptOnPage(page, lastUpdate, now, minTime) <==> l in page && InWindow(l, lastUpdate, now, minTime)
  {
    FilterMembers(page, WindowTest(lastUpdate, now, minTime));
  }

  /** The kept listings of all pages, page by page. */
  function KeptAll(pages: seq<seq<Listing>>, lastUpdate: int, now: real, minTime: real): (r: seq<Listing>)
    decreases |pages|
  {
    if pages == [] then []
    else KeptAll(pages[..|pages| - 1], lastUpdate, now, minTime) + KeptOnPage(pages[|pages| - 1], lastUpdate, now, minTime)
  }

  /** A sweep keeps exactly the listings of its pages that lie in the window. */
  lemma {:induction false} KeptAllMembers(pages: seq<seq<Listing>>, lastUpdate: int, now: real, minTime: real)
    ensures forall l :: l in KeptAll(pages, lastUpdate, now, minTime) <==>
              InWindow(l, lastUpdate, now, minTime) && exists i :: 0 <= i < |pages| && l in pages[i]
    decreases |pages|
  {
    if pages != [] {
      var init := pages[..|pages| - 1];
      var last := pages[|pages| - 1];
      KeptAllMembers(init, lastUpdate, now, minTime);
      KeptOnPageMembers(last, lastUpdate, now, minTime);
      forall l | InWindow(l, lastUpdate, now, minTime) && exists i :: 0 <= i < |pages| && l in pages[i]
        ensures l in KeptAll(pages, lastUpdate, now, minTime)
      {
        var i :| 0 <= i < |pages| && l in pages[i];
        if i < |init| {
          assert init[i] == pages[i];
        }
      }
      forall l | l in KeptAll(init, lastUpdate, now, minTime)
        ensures exists i :: 0 <= i < |pages| && l in pages[i]
      {
        var i :| 0 <= i < |init| && l in init[i];
        assert init[i] == pages[i];
      }
    }
  }

  /** What a buyer pays at least: the starting bid or the highest bid, whichever is larger. */
  function EffectivePrice(l: Listing): (p: int)
    ensures p >= l.startingBid && p >= l.highestBid
    ensures p == l.startingBid || p == l.highestBid
  {
    if l.startingBid > l.highestBid then l.startingBid else l.highestBid
  }

  /** The recorded floor of a key, 0 when nothing was recorded (a
      `defaultdict(lambda: 0)` read). */
  function PriceOf(floors: map<string, real>, k: string): (r: real) {
    if k in floors then floors[k] else 0.0
  }

  /** A flip: the effective price is strictly below the floor minus the
      required profit. */
  predicate IsFlip(l: Listing, floors: map<string, real>, minProfit: real) {
    (EffectivePrice(l) as real) < PriceOf(floors, KeyOf(l)) - minProfit
  }

  function FlipTest(floors: map<string, real>, minProfit: real): (r: Listing -> bool) {
    l => IsFlip(l, floors, minProfit)
  }

  /** The flips among the stored auctions, in order. */
  function Flips(auctions: seq<Listing>, floors: map<string, real>, minProfit: real): (r: seq<Listing>) {
    Filter(auctions, FlipTest(floors, minProfit))
  }

  /** Exactly the stored auctions that are flips are reported. */
  lemma FlipsMembers(auctions: seq<Listing>, floors: map<string, real>, minProfit: real)
    ensures forall l :: l in Flips(auctions, floors, minProfit) <==> l in auctions && IsFlip(l, floors, minProfit)
  {
    FilterMembers(auctions, FlipTest(floors, minProfit));
  }

  /** The flips of a list extended by one auction. */
  lemma FlipsSnoc(auctions: seq<Listing>, l: Listing, floors: map<string, real>, minProfit: real)
    ensures Flips(auctions + [l], floors, minProfit)
            == Flips(auctions, floors, minProfit) + (if IsFlip(l, floors, minProfit) then [l] else [])
  {
    FilterSnoc(auctions, l, FlipTest(floors, minProfit));
  }

  /** The keys of the given listings. */
  function KeysOf(s: seq<Listing>): (r: set<string>)
    decreases |s|
  {
    if s == [] then {} else KeysOf(s[..|s| - 1]) + {KeyOf(s[|s| - 1])}
  }

  lemma KeysOfSnoc(s: seq<Listing>, l: Listing)
    ensures KeysOf(s + [l]) == KeysOf(s) + {KeyOf(l)}
  {
    assert (s + [l])[..|s + [l]| - 1] == s;
  }

  /** The floor table after the floors of the listed auctions' keys were read
      through the defaulting lookup: every key read gains a 0 entry if it had
      none. */
  function WithDefaults(floors: map<string, real>, read: seq<Listing>): (r: map<string, real>) {
    map k | k in floors.Keys + KeysOf(read) :: PriceOf(floors, k)
  }

  /** Reading floors adds exactly the keys read and changes no floor's value. */
  lemma WithDefaultsSpec(floors: map<string, real>, read: seq<Listing>)
    ensures WithDefaults(floors, read).Keys == floors.Keys + KeysOf(read)
    ensures forall k :: PriceOf(WithDefaults(floors, read), k) == PriceOf(floors, k)
    ensures forall k :: k in floors ==> WithDefaults(floors, read)[k] == floors[k]
  {
  }

  /** The table after reading the floor of `k` through the defaulting lookup:
      a missing key is stored with floor 0. */
  function DefaultRead(table: map<string, real>, k: string): (r: map<string, real>) {
    if k in table then table else table[k := 0.0]
  }

  /** After the read `k` is present, reads as it did before, and no other key
      is added or changed. */
  lemma DefaultReadSpec(table: map<string, real>, k: string)
    ensures k in DefaultRead(table, k) && DefaultRead(table, k)[k] == PriceOf(table, k)
    ensures forall j :: j != k ==> (j in DefaultRead(table, k) <==> j in table)
    ensures forall j :: PriceOf(DefaultRead(table, k), j) == PriceOf(table, j)
  {
  }

  /** `table` is `floors` after the floors of the keys of `read` were read:
      it holds the old keys and the keys read, and every floor reads as before. */
  ghost predicate ReadThrough(table: map<string, real>, floors: map<string, real>, read: seq<Listing>) {
    && (forall k :: k in table <==> k in floors || k in KeysOf(read))
    && (forall k :: PriceOf(table, k) == PriceOf(floors, k))
  }

  /** Reading one more listing's floor keeps the relation, and the value read
      is the floor recorded before any reads. */
  lemma ReadThroughStep(table: map<string, real>, floors: map<string, real>, read: seq<Listing>, l: Listing)
    requires ReadThrough(table, floors, read)
    ensures ReadThrough(DefaultRead(table, KeyOf(l)), floors, read + [l])
    ensures DefaultRead(table, KeyOf(l))[KeyOf(l)] == PriceOf(floors, KeyOf(l))
  {
    KeysOfSnoc(read, l);
    DefaultReadSpec(table, KeyOf(l));
  }

  /** A table related to `floors` by the reads of `read` is the table after
      those reads. */
  lemma WithDefaultsExt(table: map<string, real>, floors: map<string, real>, read: seq<Listing>)
    requires ReadThrough(table, floors, read)
    ensures table == WithDefaults(floors, read)
  {
    WithDefaultsSpec(floors, read);
    assert forall k | k in table :: table[k] == PriceOf(table, k);
    FloorsExt(table, WithDefaults(floors, read));
  }

  /** One step of the flip scan over `auctions`: reading the floor of the
      listing at `i` keeps the read-through relation, the value read is the
      floor recorded before the scan, and the listing is reported exactly when
      it is a flip. */
  lemma ScanStep(auctions: seq<Listing>, i: nat, table: map<string, real>, floors: map<string, real>, minProfit: real)
    requires i < |auctions| && ReadThrough(table, floors, auctions[..i])
    ensures var k := KeyOf(auctions[i]);
            && ReadThrough(DefaultRead(table, k), floors, auctions[..i + 1])
            && DefaultRead(table, k)[k] == PriceOf(floors, k)
    ensures Flips(auctions[..i + 1], floors, minProfit)
            == Flips(auctions[..i], floors, minProfit)
               + (if IsFlip(auctions[i], floors, minProfit) then [auctions[i]] else [])
  {
    var l := auctions[i];
    PrefixSnoc(auctions, i);
    ReadThroughStep(table, floors, auctions[..i], l);
    FlipsSnoc(auctions[..i], l, floors, minProfit);
  }

  /** Every key with a history has its lower median as its floor. */
  predicate FloorsAreMedians(floors: map<string, real>, h: History)
    requires NonEmptyHistories(h)
  {
    forall k :: k in h ==> k in floors && floors[k] == LowerMedian(h[k])
  }

  /** Every stored floor of a key without a history, except the
      recombobulator's, is 0. */
  predicate UnsampledAtZero(floors: map<string, real>, h: History) {
    forall k :: k in floors && k !in h && k != RECOMBOBULATOR ==> floors[k] == 0.0
  }

  /** A refresh sets every floor of a key with a history to its lower median
      and keeps the 0 floors of the other keys. */
  lemma RefreshKeepsInvariant(floors: map<string, real>, h: History, bazaar: real)
    requires NonEmptyHistories(h) && UnsampledAtZero(floors, h)
    ensures FloorsAreMedians(Refresh(floors, h, bazaar), h)
    ensures UnsampledAtZero(Refresh(floors, h, bazaar), h)
  {
    RefreshSpec(floors, h, bazaar);
  }

  /** Sampling only adds histories, so floors that were 0 for keys without a
      history stay 0 for the keys that still have none. */
  lemma SweepKeepsZeros(floors: map<string, real>, h: History, pages: seq<seq<Listing>>, now: real)
    requires NonEmptyHistories(h) && UnsampledAtZero(floors, h)
    ensures UnsampledAtZero(floors, SweepHistory(h, pages, now))
  {
    forall k | k in h
      ensures k in SweepHistory(h, pages, now)
    {
      SweepHistoryGrows(h, pages, now, k);
    }
  }

  /** The defaulting reads of the flip scan add only 0 floors and change no
      floor, so both parts of the invariant survive them. */
  lemma DefaultsKeepInvariant(floors: map<string, real>, h: History, read: seq<Listing>)
    requires NonEmptyHistories(h) && FloorsAreMedians(floors, h) && UnsampledAtZero(floors, h)
    ensures FloorsAreMedians(WithDefaults(floors, read), h)
    ensures UnsampledAtZero(WithDefaults(floors, read), h)
  {
    WithDefaultsSpec(floors, read);
    forall k | k in WithDefaults(floors, read) && k !in floors
      ensures WithDefaults(floors, read)[k] == 0.0
    {
      assert PriceOf(WithDefaults(floors, read), k) == PriceOf(floors, k);
    }
  }

  /** With a non-negative profit margin, a listing whose key reads as floor 0
      (never observed, whether or not a read stored the 0) and whose starting
      bid is not negative is never a flip. */
  lemma UnobservedNeverFlips(l: Listing, floors: map<string, real>, minProfit: real)
    requires PriceOf(floors, KeyOf(l)) == 0.0 && minProfit >= 0.0 && l.startingBid >= 0
    ensures !IsFlip(l, floors, minProfit)
  {
  }

  // ---------------------------------------------------------------------------
  // Sampling schedule

  /** The counter a sweep leaves behind: 5 wraps to 0, anything else steps up. */
  function NextCounter(c: int): (n: int)
    requires 0 <= c <= 5
    ensures 0 <= n <= 5
    ensures n == (c + 1) % 6
  {
    if c == 5 then 0 else c + 1
  }

  /** The counter after `sweeps` sweeps that saw a new feed update. */
  function CounterAfter(c: int, sweeps: nat): (n: int)
    requires 0 <= c <= 5
    ensures 0 <= n <= 5
  {
    if sweeps == 0 then c else NextCounter(CounterAfter(c, sweeps - 1))
  }

  lemma {:induction false} CounterAfterMod(c: int, sweeps: nat)
    requires 0 <= c <= 5
    ensures CounterAfter(c, sweeps) == (c + sweeps) % 6
  {
    if sweeps > 0 {
      CounterAfterMod(c, sweeps - 1);
    }
  }

  /** Starting from 5, the sweep that follows `sweeps` earlier sweeps samples
      prices exactly when `sweeps` is a multiple of 6: the first sweep and every
      sixth one after it. */
  lemma SamplingCadence(sweeps: nat)
    ensures CounterAfter(5, sweeps) == 5 <==> sweeps % 6 == 0
  {
    CounterAfterMod(5, sweeps);
  }
}
